/** The life of the host's GL contexts: the level contexts and the pbuffer contexts, the one remembered as current, the
    frametap table keyed by context, and the attribute list kept from the last creation. Contexts are addresses; 0 is
    none, and an address may come back once its context is destroyed. */
module GlContexts {

  const MAX_LVLCNTX := 6
  const MAX_PBUFFER := 16
  const FRAMETAP_MAX_CONTEXTS := 8
  const MESAGL_MAGIC := 0x5b5eb5e5
  const MESAGL_HPBDC := 0x50424443

  type Attribs = seq<int>

  function LevelSlot(level: nat): (n: nat)
    ensures n < MAX_LVLCNTX && (n == 0 <==> level == 0)
  {
    if level == 0 then 0 else if level % MAX_LVLCNTX != 0 then level % MAX_LVLCNTX else 1
  }

  /** Below the number of levels each has a slot of its own; further up they come round again, and a multiple of it falls to
      slot 1. */
  lemma SlotsShared(a: nat, b: nat)
    ensures a < 6 ==> LevelSlot(a) == a
    ensures a > 0 && a % 6 == 0 ==> LevelSlot(a) == 1
    ensures LevelSlot(a) == LevelSlot(b)
            <==> (a == 0 && b == 0) || (a > 0 && b > 0 && (a % 6 == b % 6 || (a % 6 <= 1 && b % 6 <= 1)))
  {
  }

  /** The pairs of a list, which ends at the first name that is zero. */
  function Listed(attrib: seq<int>, i: nat): nat
    requires i <= |attrib|
    ensures i <= Listed(attrib, i) <= |attrib|
    decreases |attrib| - i
  {
    if i == |attrib| || attrib[i] == 0 || i + 1 == |attrib| then i else Listed(attrib, i + 2)
  }

  /** Where a list ends: behind whole pairs, none of whose names is zero, at a zero or with nothing but a name left. */
  lemma {:induction false} ListEnds(attrib: seq<int>, i: nat)
    requires i <= |attrib| && i % 2 == 0
    ensures Listed(attrib, i) % 2 == 0
    ensures forall k | i <= k < Listed(attrib, i) && k % 2 == 0 :: attrib[k] != 0
    ensures Listed(attrib, i) + 1 < |attrib| ==> attrib[Listed(attrib, i)] == 0
    decreases |attrib| - i
  {
    if i + 1 < |attrib| && attrib[i] != 0 {
      ListEnds(attrib, i + 2);
    }
  }

  /** The handle the guest uses for a pbuffer's device context. */
  function PbufferDC(i: nat): nat {
    MESAGL_HPBDC / 16 * 16 + i
  }

  /** The handle the guest uses for a pbuffer's rendering context. */
  function PbufferRC(i: nat): nat {
    MESAGL_MAGIC % 0x1000_0000 * 16 + i
  }

  /** Every context in the slots is live, and none is there twice. */
  ghost predicate SlotsOk(slots: seq<nat>, live: set<nat>) {
    && (forall i | 0 <= i < |slots| && slots[i] != 0 :: slots[i] in live)
    && (forall i, j | 0 <= i < j < |slots| && slots[i] != 0 :: slots[i] != slots[j])
  }

  ghost predicate NoneShared(a: seq<nat>, b: seq<nat>) {
    forall i, j | 0 <= i < |a| && 0 <= j < |b| && a[i] != 0 :: a[i] != b[j]
  }

  /** Every entry of that key is gone from the table, and no other. */
  predicate OnlyDropped(table: seq<nat>, table': seq<nat>, key: nat) {
    |table'| == |table| && forall i | 0 <= i < |table| :: table'[i] == if table[i] == key then 0 else table[i]
  }

  predicate NoneFrom(slots: seq<nat>, n: nat) {
    forall i | n <= i < |slots| :: slots[i] == 0
  }

  /** The index of the first slot that is free, or the number of slots. */
  function FirstFree(slots: seq<nat>): (k: nat)
    ensures k <= |slots|
    ensures k < |slots| ==> slots[k] == 0
    ensures forall i | 0 <= i < k :: slots[i] != 0
  {
    if slots == [] || slots[0] == 0 then 0 else 1 + FirstFree(slots[1..])
  }

  /** The remembered context is one that has not been destroyed; so is every context in a slot, each in one slot only;
      the frametap table has one entry per context at most, and only for contexts that still are; and no live context is
      lost track of. */
  ghost predicate Sound(ctx: seq<nat>, pbrc: seq<nat>, current: nat, live: set<nat>, frametap: seq<nat>) {
    && 0 !in live
    && (current != 0 ==> current in live)
    && SlotsOk(ctx, live) && SlotsOk(pbrc, live) && NoneShared(ctx, pbrc)
    && SlotsOk(frametap, live)
    && forall c | c in live :: c in ctx || c in pbrc
  }

  /** Everything that is kept, as one value. */
  datatype Kept = Kept(ctx: seq<nat>, pbrc: seq<nat>, pbufferUsed: seq<bool>, current: nat, bound: nat, live: map<nat, Attribs>,
                       frametap: seq<nat>, cache: Attribs, window: bool, visual: bool, active: bool)

  datatype GuestCall =
    | Create(gDC: nat, address: nat)
    | CreateWithAttribs(shares: bool, attrib: seq<int>, address: nat)
    | Delete(level: nat)
    | Select(cntxRC: nat, level: nat)
    | NewPbuffer(width: nat, hasConfig: bool, address: nat)
    | OldPbuffer(handle: nat)
    | PresentFrame
    | PurgeTemporary
    | TakeBack(windowReplaced: bool)
    | GlideTakes(context: nat)
    | Activate(activate: bool, deferred: bool)
    | Deactivate
    | LoadLibrary
    | ChoosePixelFormat
    | WindowComes
    | NewPixelFormat(windowReplaced: bool)
    | UnloadLibrary(hasContext: bool, loaded: bool)

  /** The addresses the host's creation can come back with in the course of a call: those that are not live then. A
      context destroyed earlier in the same call leaves its address free. */
  predicate MayGive(s: Kept, call: GuestCall) {
    match call
    case Create(gDC, address) =>
      gDC == PbufferDC(gDC % MAX_PBUFFER) || address !in s.live || address in s.ctx || (|s.ctx| > 0 && s.ctx[0] != 0)
    case CreateWithAttribs(shares, attrib, address) =>
      var list := attrib[..Listed(attrib, 0)];
      || address !in s.live
      || (if shares && |s.ctx| > 1 && s.ctx[0] != 0 then FirstFree(s.ctx) == MAX_LVLCNTX && address == s.ctx[1] else address in s.ctx)
      || (!(shares && |s.ctx| > 0 && s.ctx[0] != 0) && list != [] && list == s.cache)
    case NewPbuffer(width, hasConfig, address) => address !in s.live
    case _ => true
  }

  lemma FreshIsGiven(s: Kept, call: GuestCall)
    requires call.Create? || call.CreateWithAttribs? || call.NewPbuffer?
    ensures call.address !in s.live ==> MayGive(s, call)
  {
  }

  /** What a call does to everything that is kept; which contexts are live then, and which of them have a frametap entry,
      follows from soundness. A creation the host cannot answer that way is passed over. */
  ghost predicate Did(call: GuestCall, s: Kept, t: Kept, contextZero: bool)
    requires |s.ctx| == MAX_LVLCNTX && |s.pbrc| == MAX_PBUFFER == |s.pbufferUsed|
  {
    match call
    case Create(_, _) => if MayGive(s, call) then DidCreate(call, s, t) else t == s
    case CreateWithAttribs(_, _, _) => if MayGive(s, call) then DidCreateWithAttribs(call, s, t, contextZero) else t == s
    case NewPbuffer(_, _, _) => if MayGive(s, call) then DidNewPbuffer(call, s, t) else t == s
    case OldPbuffer(handle) =>
      var i := handle % 16;
      t == s.(pbrc := s.pbrc[i := 0], pbufferUsed := s.pbufferUsed[i := false], live := t.live, frametap := t.frametap,
              current := if s.current == s.pbrc[i] then 0 else s.current)
    case Delete(_) => DidDelete(call, s, t, contextZero)
    case Select(_, _) => DidSelect(call, s, t)
    case NewPixelFormat(windowReplaced) =>
      if s.visual && s.window && windowReplaced then
        t == s.(ctx := s.ctx[0 := 0], current := 0, bound := t.bound, live := map[], frametap := t.frametap, cache := [],
                window := false)
      else DidPurge(s.(visual := true), t)
    case UnloadLibrary(hasContext, loaded) => DidUnload(call, s, t, contextZero)
    case PurgeTemporary => DidPurge(s, t)
    case PresentFrame =>
      && t == s.(frametap := t.frametap, active := t.active) && (s.active ==> t.active)
      && (s.bound != 0 && 0 in s.frametap ==> s.bound in t.frametap)
    case TakeBack(windowReplaced) => t == s.(bound := if s.current == 0 || windowReplaced then s.bound else s.current)
    case GlideTakes(context) => t == s.(bound := context)
    case Activate(activate, deferred) =>
      && t == s.(active := t.active, cache := if s.active && !activate && !deferred && !contextZero then [] else s.cache)
      && (t.active == activate || (activate && t.active == s.active))
    case Deactivate => t == s.(cache := if contextZero then s.cache else [])
    case LoadLibrary => t == s.(current := 0)
    case ChoosePixelFormat => t == s.(visual := true)
    case WindowComes => t == s.(window := true)
  }

  ghost predicate DidCreate(call: GuestCall, s: Kept, t: Kept)
    requires call.Create? && |s.ctx| == MAX_LVLCNTX
  {
    if call.gDC == 0x5042_4440 + call.gDC % 16 then t == s
    else
      t == s.(ctx := [if s.ctx[0] != 0 then s.ctx[0] else call.address, 0, 0, 0, 0, 0], current := 0, bound := 0,
              live := t.live, frametap := t.frametap)
  }

  ghost predicate DidCreateWithAttribs(call: GuestCall, s: Kept, t: Kept, contextZero: bool)
    requires call.CreateWithAttribs? && |s.ctx| == MAX_LVLCNTX
  {
    var k, list := FirstFree(s.ctx), call.attrib[..Listed(call.attrib, 0)];
    if call.shares && s.ctx[0] != 0 then
      t == s.(ctx := if k < 6 then s.ctx[k := call.address] else s.ctx[..1] + s.ctx[2..] + [call.address],
              current := if s.current == s.ctx[1] && k == 6 then 0 else s.current, live := t.live, frametap := t.frametap)
    else if list != [] && list == s.cache then
      t == s.(current := 0, bound := 0, live := t.live, frametap := t.frametap)
    else
      t == s.(ctx := [call.address, 0, 0, 0, 0, 0], current := 0, bound := 0, live := t.live, frametap := t.frametap,
              cache := if s.active && !contextZero then [] else list, active := false)
  }

  ghost predicate DidNewPbuffer(call: GuestCall, s: Kept, t: Kept)
    requires call.NewPbuffer? && |s.pbrc| == MAX_PBUFFER == |s.pbufferUsed|
  {
    if forall i | 0 <= i < MAX_PBUFFER :: s.pbufferUsed[i] then t == s
    else
      exists i | 0 <= i < MAX_PBUFFER ::
        && !s.pbufferUsed[i] && (forall j | 0 <= j < i :: s.pbufferUsed[j])
        && t == s.(pbufferUsed := s.pbufferUsed[i := call.width > 0], live := t.live,
                   pbrc := if call.hasConfig then s.pbrc[i := call.address] else s.pbrc)
  }

  ghost predicate DidDelete(call: GuestCall, s: Kept, t: Kept, contextZero: bool)
    requires call.Delete? && |s.ctx| == MAX_LVLCNTX
  {
    if call.level == 0 then
      t == s.(ctx := [s.ctx[0], 0, 0, 0, 0, 0], current := 0, bound := 0, live := t.live, frametap := t.frametap,
              active := false, cache := if s.active && !contextZero then [] else s.cache)
    else
      t == s.(ctx := s.ctx[LevelSlot(call.level) := 0], current := 0, bound := 0, live := t.live, frametap := t.frametap)
  }

  ghost predicate DidSelect(call: GuestCall, s: Kept, t: Kept)
    requires call.Select? && |s.ctx| == MAX_LVLCNTX && |s.pbrc| == MAX_PBUFFER
  {
    var n := LevelSlot(call.level);
    if call.cntxRC == 0x5b5e_b5e5 - n then
      t == s.(current := s.ctx[n], bound := s.ctx[n], active := t.active) && (s.active ==> t.active) && (n > 0 ==> t.active == s.active)
    else if 0xb5eb_5e50 <= call.cntxRC < 0xb5eb_5e60 then
      t == s.(current := s.pbrc[call.cntxRC - 0xb5eb_5e50], bound := s.pbrc[call.cntxRC - 0xb5eb_5e50])
    else t == s
  }

  ghost predicate DidPurge(s: Kept, t: Kept)
    requires |s.ctx| == MAX_LVLCNTX
  {
    if s.ctx[0] != 0 && (forall i | 2 <= i < MAX_LVLCNTX :: s.ctx[i] == 0) then
      t == s.(ctx := s.ctx[0 := 0], cache := [], current := if s.current == s.ctx[0] then 0 else s.current,
              live := t.live, frametap := t.frametap)
    else t == s.(live := t.live, frametap := t.frametap)
  }

  ghost predicate DidUnload(call: GuestCall, s: Kept, t: Kept, contextZero: bool)
    requires call.UnloadLibrary? && |s.ctx| == MAX_LVLCNTX
  {
    var ctx := if call.hasContext then [s.ctx[0], 0, 0, 0, 0, 0] else s.ctx;
    var active := s.active && !call.hasContext;
    if s.window && call.loaded then
      t == s.(ctx := ctx[0 := 0], current := 0, bound := t.bound, live := map[], frametap := t.frametap, cache := [],
              window := false, visual := false, active := active)
    else
      t == s.(ctx := ctx, current := if call.hasContext then 0 else s.current, bound := if call.hasContext then 0 else s.bound,
              cache := if call.hasContext && s.active && !contextZero then [] else s.cache,
              live := t.live, frametap := t.frametap, active := active)
  }

  /** Every call of a run did what it does, one after the other. */
  ghost predicate AllDid(calls: seq<GuestCall>, trace: seq<Kept>, contextZero: bool)
    decreases |trace|
  {
    && 0 < |trace| <= |calls| + 1
    && (|trace| > 1 ==>
          var n := |trace| - 2;
          && |trace[n].ctx| == MAX_LVLCNTX && |trace[n].pbrc| == MAX_PBUFFER == |trace[n].pbufferUsed|
          && Did(calls[n], trace[n], trace[n + 1], contextZero)
          && AllDid(calls, trace[..n + 1], contextZero))
  }

  class MesaContexts {
    var ctx: seq<nat>
    var pbrc: seq<nat>
    var pbufferUsed: seq<bool>
    /** What the guest made current last, to be taken back after Glide has been at work. */
    var current: nat
    /** What is current on the thread. */
    var bound: nat
    /** The live contexts, each with the attribute list it was created with. */
    var live: map<nat, Attribs>
    var frametap: seq<nat>
    /** The attribute list of the last creation; empty when there is none to compare with. */
    var cache: Attribs
    var window: bool
    var visual: bool
    /** The activation latch, and the setting that keeps the cache over a deactivation. */
    var active: bool
    const contextZero: bool

    ghost predicate Valid()
      reads this
    {
      && |ctx| == MAX_LVLCNTX && |pbrc| == MAX_PBUFFER == |pbufferUsed| && |frametap| == FRAMETAP_MAX_CONTEXTS
      && Sound(ctx, pbrc, current, live.Keys, frametap)
      && (forall i | 0 <= i < MAX_PBUFFER && !pbufferUsed[i] :: pbrc[i] == 0)
    }

    function State(): Kept
      reads this
    {
      Kept(ctx, pbrc, pbufferUsed, current, bound, live, frametap, cache, window, visual, active)
    }

    /** A list to compare with describes the context the guest has at level 0. */
    ghost predicate CacheAgrees()
      reads this
    {
      cache != [] ==> |ctx| > 0 && ctx[0] != 0 && ctx[0] in live && live[ctx[0]] == cache
    }

    /** A list like the one kept: the guest is taken to ask for the same context again. */
    predicate Repeats(list: Attribs)
      reads this
    {
      list != [] && list == cache
    }

    constructor (contextZero: bool)
      ensures Valid() && CacheAgrees() && live == map[] && current == 0 && this.contextZero == contextZero
      ensures NoneFrom(ctx, 0) && NoneFrom(pbrc, 0) && NoneUsed() && cache == [] && !window && !visual && !active
    {
      ctx, pbrc, pbufferUsed := seq(MAX_LVLCNTX, i => 0), seq(MAX_PBUFFER, i => 0), seq(MAX_PBUFFER, i => false);
      current, bound, live, frametap := 0, 0, map[], seq(FRAMETAP_MAX_CONTEXTS, i => 0);
      cache, window, visual, active := [], false, false, false;
      this.contextZero := contextZero;
    }

    predicate NoneUsed()
      reads this
    {
      forall i | 0 <= i < |pbufferUsed| :: !pbufferUsed[i]
    }

    // The remembered context.

    method ReleaseCurrent()
      requires Valid()
      modifies this`current, this`bound
      ensures Valid() && current == 0 && bound == 0
    {
      current, bound := 0, 0;
    }

    /** A guest process that died takes its contexts with it; nothing of them must be taken back. */
    method ForgetCurrent()
      requires Valid()
      modifies this`current
      ensures Valid() && current == 0
    {
      current := 0;
    }

    /** Before every guest call: what Glide bound meanwhile gives way to a live context of the guest's. */
    method RestoreCurrent(windowReplaced: bool)
      requires Valid()
      modifies this`bound
      ensures Valid()
      ensures bound == (if current == 0 || windowReplaced then old(bound) else current) && (current != 0 ==> current in live)
    {
      if current == 0 || bound == current || windowReplaced {
        return;
      }
      bound := current;
    }

    /** Glide runs on the same thread and binds a context of its own. */
    method GlideBinds(context: nat)
      requires Valid()
      modifies this`bound
      ensures Valid() && bound == context
    {
      bound := context;
    }

    // The frametap table.

    /** frametap_find_context: the entry of a context, made if there is room. The table stays sound exactly if the
        context is live or there is no room for it. */
    method FindContext(key: nat) returns (found: bool)
      requires Valid()
      modifies this`frametap
      ensures Valid() <==> key == 0 || key in live || 0 !in old(frametap)
      ensures |frametap| == FRAMETAP_MAX_CONTEXTS
      ensures found ==> key != 0 && key in frametap
      ensures forall i | 0 <= i < FRAMETAP_MAX_CONTEXTS ::
                frametap[i] == old(frametap)[i] || (old(frametap)[i] == 0 && frametap[i] == key)
      ensures key != 0 && !found ==> key !in frametap && 0 !in frametap
      ensures key == 0 || key in old(frametap) || 0 !in old(frametap) ==> frametap == old(frametap)
      ensures key != 0 && 0 in old(frametap) ==> found
    {
      if key == 0 {
        return false;
      }
      var free := FRAMETAP_MAX_CONTEXTS;
      for i := 0 to FRAMETAP_MAX_CONTEXTS
        invariant forall j | 0 <= j < i :: frametap[j] != key
        invariant free == FRAMETAP_MAX_CONTEXTS ==> forall j | 0 <= j < i :: frametap[j] != 0
        invariant free == FRAMETAP_MAX_CONTEXTS || (0 <= free < i && frametap[free] == 0)
      {
        if frametap[i] == key {
          return true;
        }
        if free == FRAMETAP_MAX_CONTEXTS && frametap[i] == 0 {
          free := i;
        }
      }
      if free == FRAMETAP_MAX_CONTEXTS {
        return false;
      }
      frametap := frametap[free := key];
      assert frametap[free] == key;
      return true;
    }

    /** MesaFrametapForget. */
    method Forget(key: nat)
      requires |frametap| == FRAMETAP_MAX_CONTEXTS
      modifies this`frametap
      ensures |frametap| == FRAMETAP_MAX_CONTEXTS && OnlyDropped(old(frametap), frametap, key)
    {
      for i := 0 to FRAMETAP_MAX_CONTEXTS
        invariant |frametap| == FRAMETAP_MAX_CONTEXTS
        invariant forall j | 0 <= j < FRAMETAP_MAX_CONTEXTS ::
                    frametap[j] == if j < i && old(frametap)[j] == key then 0 else old(frametap)[j]
      {
        if frametap[i] != 0 && frametap[i] == key {
          frametap := frametap[i := 0];
        }
      }
    }

    // Destroying: the key goes first, so that it cannot be found again when the address comes back.

    method DestroyLevel(n: nat)
      requires Valid() && n < MAX_LVLCNTX && (ctx[n] != 0 ==> current != ctx[n])
      modifies this`ctx, this`live, this`frametap
      ensures Valid()
      ensures ctx == old(ctx)[n := 0] && live == old(live) - {old(ctx)[n]}
      ensures OnlyDropped(old(frametap), frametap, old(ctx)[n])
    {
      Forget(ctx[n]);
      live := live - {ctx[n]};
      OthersStay(ctx, n, 0);
      ctx := ctx[n := 0];
    }

    method DestroyPbufferContext(i: nat)
      requires Valid() && i < MAX_PBUFFER && (pbrc[i] != 0 ==> current != pbrc[i])
      modifies this`pbrc, this`live, this`frametap
      ensures Valid()
      ensures pbrc == old(pbrc)[i := 0] && live == old(live) - {old(pbrc)[i]}
      ensures OnlyDropped(old(frametap), frametap, old(pbrc)[i])
    {
      Forget(pbrc[i]);
      live := live - {pbrc[i]};
      OthersStay(pbrc, i, 0);
      pbrc := pbrc[i := 0];
    }

    /** Levels n and up, except level 0 itself, from the last one down. */
    method DestroyLevels(n: nat)
      requires Valid() && n < MAX_LVLCNTX && current == 0
      modifies this`ctx, this`live, this`frametap
      ensures Valid()
      ensures forall i | 0 <= i < MAX_LVLCNTX :: ctx[i] == if i < n then old(ctx)[i] else 0
      ensures forall c | c in live :: c in old(live) && live[c] == old(live)[c]
      ensures forall i | n <= i < MAX_LVLCNTX :: old(ctx)[i] !in live
    {
      var i := MAX_LVLCNTX;
      while i > n
        invariant Valid() && n <= i <= MAX_LVLCNTX
        invariant forall j | 0 <= j < MAX_LVLCNTX :: ctx[j] == if j < i then old(ctx)[j] else 0
        invariant forall c | c in live :: c in old(live) && live[c] == old(live)[c]
        invariant forall j | i <= j < MAX_LVLCNTX :: old(ctx)[j] !in live
      {
        ZeroIsDead();
        hide Sound;
        i := i - 1;
        if ctx[i] != 0 {
          DestroyLevel(i);
        }
      }
    }

    lemma ZeroIsDead()
      requires Valid()
      ensures 0 !in live
    {
    }

    /** A new context in level slot n, which is empty. address is 0 when the creation failed. */
    method Fill(n: nat, address: nat, attribs: Attribs)
      requires Valid() && n < MAX_LVLCNTX && ctx[n] == 0 && address !in live
      modifies this`ctx, this`live
      ensures Valid() && ctx == old(ctx)[n := address] && (address != 0 ==> address !in frametap)
      ensures live == if address != 0 then old(live)[address := attribs] else old(live)
    {
      NewInSlot(ctx, pbrc, frametap, live.Keys, n, address);
      OthersStay(ctx, n, address);
      ctx := ctx[n := address];
      if address != 0 {
        live := live[address := attribs];
        assert ctx[n] == address;
      }
    }

    // The cached attribute list.

    /** CompareAttribArray: whether the list differs from the one kept, which it then replaces. */
    method CompareAttribArray(attrib: seq<int>) returns (differs: bool)
      modifies this`cache
      ensures var list := attrib[..Listed(attrib, 0)];
              && (differs <==> list == [] || list != old(cache))
              && cache == if differs then list else old(cache)
    {
      var i := 0;
      while i + 1 < |attrib| && attrib[i] != 0
        invariant i <= |attrib|
        invariant Listed(attrib, 0) == Listed(attrib, i)
        decreases |attrib| - i
      {
        i := i + 2;
      }
      if i != 0 && |cache| == i && cache == attrib[..i] {
        return false;
      }
      cache := attrib[..i];
      return true;
    }

    /** After the deactivation of the display no request counts as a repeat, unless the settings keep contexts over it:
        then exactly those that did before. */
    method DeactivateOnce()
      modifies this`cache
      ensures cache == if contextZero then old(cache) else []
      ensures forall list :: Repeats(list) <==> contextZero && old(Repeats(list))
      ensures old(CacheAgrees()) ==> CacheAgrees()
    {
      DropList();
    }

    method DropList()
      modifies this`cache
      ensures cache == if contextZero then old(cache) else []
    {
      if !contextZero {
        cache := [];
      }
    }

    /** MGLActivateHandler: the latch follows every call, unless the guest has not presented yet; the list goes with a
        deactivation at once. A deferred one comes by timer, as a DeactivateOnce of its own. */
    method ActivateHandler(activate: bool, deferred: bool, takeoverDeferred: bool)
      modifies this`active, this`cache
      ensures active == if activate && takeoverDeferred then old(active) else activate
      ensures cache == if old(active) && !activate && !deferred && !contextZero then [] else old(cache)
    {
      if activate != active {
        if activate && takeoverDeferred {
          return;
        }
        active := activate;
        if !activate && !deferred {
          DropList();
        }
      }
    }

    // The guest's calls.

    /** wglCreateContext: level 0 is kept if it is there, all others go. address is what the host's creation gives. */
    method CreateContext(gDC: nat, address: nat) returns (ret: int)
      requires Valid() && MayGive(State(), Create(gDC, address))
      modifies this`ctx, this`live, this`frametap, this`current, this`bound
      ensures Valid() && (old(CacheAgrees()) ==> CacheAgrees())
      ensures gDC == 0x5042_4440 + gDC % 16 ==> ret == 0 && State() == old(State())
      ensures gDC != 0x5042_4440 + gDC % 16 ==>
                && current == 0 && bound == 0
                && (forall i | 1 <= i < MAX_LVLCNTX :: ctx[i] == 0)
                && ctx[0] == (if old(ctx)[0] != 0 then old(ctx)[0] else address)
                && (old(ctx)[0] == 0 && address != 0 ==> address in live && address !in frametap)
                && (ret == 0 <==> ctx[0] != 0)
    {
      hide Sound;
      if gDC == PbufferDC(gDC % MAX_PBUFFER) {
        return 0;
      }
      ReleaseCurrent();
      Level0Stays();
      DestroyLevels(1);
      Level0Stays();
      ZeroIsDead();
      if ctx[0] == 0 {
        Fill(0, address, []);
      }
      ret := if ctx[0] != 0 then 0 else 1;
    }

    /** What is known of level 0 without looking into the slots. */
    lemma Level0Stays()
      requires Valid()
      ensures ctx[0] != 0 ==> ctx[0] in live
    {
    }

    /** MGLDeleteContext: one level, or for level 0 all the others. */
    method DeleteContext(level: nat, takeoverDeferred: bool)
      requires Valid()
      modifies this`ctx, this`live, this`frametap, this`current, this`bound, this`cache, this`active
      ensures Valid() && current == 0 && bound == 0
      ensures old(CacheAgrees()) ==> CacheAgrees()
      ensures 0 < level < 6 ==> ctx == old(ctx)[level := 0]
      ensures level != 0 ==> ctx == old(ctx)[LevelSlot(level) := 0] && cache == old(cache) && active == old(active)
      ensures level == 0 ==> forall i | 0 <= i < MAX_LVLCNTX :: ctx[i] == if i == 0 then old(ctx)[0] else 0
      ensures level == 0 ==> !active && cache == if old(active) && !contextZero then [] else old(cache)
    {
      var n := LevelSlot(level);
      ReleaseCurrent();
      if n != 0 {
        DestroyLevel(n);
      } else {
        DestroyLevels(1);
        ActivateHandler(false, false, takeoverDeferred);
      }
    }

    /** MGLMakeCurrent: a level context on the window, or a pbuffer's on the pbuffer. */
    method MakeCurrent(cntxRC: nat, level: nat, takeoverDeferred: bool)
      requires Valid()
      modifies this`current, this`bound, this`active, this`cache
      ensures Valid() && cache == old(cache)
      ensures level < 6 && cntxRC == 0x5b5e_b5e5 - level ==> current == bound == ctx[level]
      ensures cntxRC == 0x5b5e_b5e5 - LevelSlot(level) ==> current == bound == ctx[LevelSlot(level)]
      ensures forall i | 0 <= i < MAX_PBUFFER :: cntxRC == 0xb5eb_5e50 + i ==> current == bound == pbrc[i]
      ensures cntxRC != 0x5b5e_b5e5 - LevelSlot(level) && !(0xb5eb_5e50 <= cntxRC < 0xb5eb_5e60) ==>
                current == old(current) && bound == old(bound)
      ensures active == old(active) || (active && level == 0 && cntxRC == 0x5b5e_b5e5)
      ensures level == 0 && cntxRC == 0x5b5e_b5e5 && !takeoverDeferred ==> active
    {
      hide NoneShared;
      var n, i := LevelSlot(level), cntxRC % MAX_PBUFFER;
      if cntxRC == MESAGL_MAGIC - n {
        bound, current := ctx[n], ctx[n];
        if n == 0 {
          ActivateHandler(true, false, takeoverDeferred);
        }
      }
      if cntxRC == PbufferRC(i) {
        bound, current := pbrc[i], pbrc[i];
      }
    }

    /** A creation of level 0 leaves no list behind that describes nothing: it succeeds, or there is no list, or nothing
        is created, or the deactivation that goes with it drops the list again. */
    predicate ListKept(attrib: seq<int>, address: nat)
      reads this
    {
      var list := attrib[..Listed(attrib, 0)];
      address != 0 || list == [] || Repeats(list) || (active && !contextZero)
    }

    /** wglCreateContextAttribsARB without anything to share with: a list like the last one means the guest asks again,
        and gets the context it has. With creations that succeed it always gets one. */
    method CreateAlone(attrib: seq<int>, address: nat, takeoverDeferred: bool) returns (ret: bool)
      requires Valid() && (Repeats(attrib[..Listed(attrib, 0)]) || address !in live || address in ctx)
      modifies this`ctx, this`live, this`frametap, this`current, this`bound, this`cache, this`active
      ensures Valid() && current == 0 && bound == 0 && (ret <==> ctx[0] != 0)
      ensures active == (old(active) && old(Repeats(attrib[..Listed(attrib, 0)])))
      ensures var list := attrib[..Listed(attrib, 0)];
              if old(Repeats(list)) then
                ctx == old(ctx) && live == old(live) && cache == old(cache)
              else
                && ctx[0] == address && (address != 0 ==> address in live && live[address] == list && address !in frametap)
                && (forall i | 1 <= i < MAX_LVLCNTX :: ctx[i] == 0)
                && cache == (if old(active) && !contextZero then [] else list)
                && (forall c | c in live :: c == address || c in old(live))
      ensures old(CacheAgrees()) ==> (CacheAgrees() <==> old(ListKept(attrib, address)))
      ensures old(CacheAgrees()) && address != 0 ==> ret && CacheAgrees()
    {
      hide Sound;
      ReleaseCurrent();
      Level0Stays();
      var differs := CompareAttribArray(attrib);
      if differs {
        DestroyLevels(0);
        ActivateHandler(false, false, takeoverDeferred);
        Fill(0, address, attrib[..Listed(attrib, 0)]);
      }
      ret := ctx[0] != 0;
    }

    /** The other case: the context shares with the one in the slot before, which is a live one; a full array loses
        level 1 and moves down by one. */
    method CreateShared(attrib: seq<int>, address: nat) returns (ret: bool, level: nat, parent: nat)
      requires Valid() && ctx[0] != 0
      requires address in live ==> FirstFree(ctx) == MAX_LVLCNTX && address == ctx[1]
      modifies this`ctx, this`live, this`frametap, this`current
      ensures Valid() && (old(CacheAgrees()) ==> CacheAgrees())
      ensures 1 <= level < MAX_LVLCNTX && ctx[level] == address && (ret <==> address != 0)
      ensures parent == ctx[level - 1] != 0 && parent in live && parent in old(live)
      ensures address != 0 ==> address in live && live[address] == attrib[..Listed(attrib, 0)] && address !in frametap
      ensures current == if old(current) == old(ctx)[1] && FirstFree(old(ctx)) == MAX_LVLCNTX then 0 else old(current)
      ensures FirstFree(old(ctx)) < MAX_LVLCNTX ==> level == FirstFree(old(ctx)) && ctx == old(ctx)[level := address]
      ensures FirstFree(old(ctx)) == MAX_LVLCNTX ==>
                level == 5 && ctx == [old(ctx)[0], old(ctx)[2], old(ctx)[3], old(ctx)[4], old(ctx)[5], address]
    {
      hide Sound;
      var i := 0;
      while i < MAX_LVLCNTX && ctx[i] != 0
        invariant i <= MAX_LVLCNTX
        invariant forall j | 0 <= j < i :: ctx[j] != 0
      {
        i := i + 1;
      }
      if i == MAX_LVLCNTX {
        if current == ctx[1] {
          ForgetCurrent();
        }
        ShiftDown();
        i := MAX_LVLCNTX - 1;
      }
      level, parent := i, ctx[i - 1];
      SlotIsLive(0);
      SlotIsLive(i - 1);
      Fill(i, address, attrib[..Listed(attrib, 0)]);
      ret := ctx[i] != 0;
    }

    lemma SlotIsLive(i: nat)
      requires Valid() && i < MAX_LVLCNTX && ctx[i] != 0
      ensures ctx[i] in live
    {
    }

    /** A full array gives up level 1. */
    method ShiftDown()
      requires Valid() && (ctx[1] != 0 ==> current != ctx[1])
      modifies this`ctx, this`live, this`frametap
      ensures Valid()
      ensures ctx == [old(ctx)[0], old(ctx)[2], old(ctx)[3], old(ctx)[4], old(ctx)[5], 0]
      ensures live == old(live) - {old(ctx)[1]}
    {
      DestroyLevel(1);
      ShiftedOk(ctx, pbrc, live.Keys);
      Shift();
    }

    /** The levels move down by one; the last slot, which the creation overwrites, is given up here. */
    method Shift()
      requires |ctx| == MAX_LVLCNTX
      modifies this`ctx
      ensures ctx == [old(ctx)[0], old(ctx)[2], old(ctx)[3], old(ctx)[4], old(ctx)[5], 0]
    {
      ghost var before := ctx;
      for i := 1 to MAX_LVLCNTX - 1
        invariant |ctx| == MAX_LVLCNTX
        invariant ctx[..i] == before[..1] + before[2..i + 1] && ctx[i..] == before[i..]
      {
        ghost var was := ctx;
        assert was[i + 1] == was[i..][1] == before[i + 1];
        ctx := ctx[i := ctx[i + 1]];
        assert ctx[i + 1..] == was[i..][1..] == before[i + 1..];
        assert before[2..i + 2] == before[2..i + 1] + [before[i + 1]];
        assert ctx[..i + 1] == was[..i] + [before[i + 1]];
      }
      assert forall j | 1 <= j < MAX_LVLCNTX - 1 :: ctx[j] == ctx[..MAX_LVLCNTX - 1][j] == before[2..][j - 1];
      ctx := ctx[MAX_LVLCNTX - 1 := 0];
    }

    /** wglCreateContextAttribsARB: argsp[0] says whether there is a context to share with. */
    method CreateContextAttribs(shares: bool, attrib: seq<int>, address: nat, takeoverDeferred: bool)
      returns (ret: bool, level: nat)
      requires Valid() && MayGive(State(), CreateWithAttribs(shares, attrib, address))
      modifies this`ctx, this`live, this`frametap, this`current, this`bound, this`cache, this`active
      ensures Valid()
      ensures old(CacheAgrees()) && address != 0 ==> ret && CacheAgrees()
      ensures old(CacheAgrees()) ==> (CacheAgrees() <==> (shares && old(ctx)[0] != 0) || old(ListKept(attrib, address)))
      ensures level < MAX_LVLCNTX && (ret <==> ctx[level] != 0)
      ensures if shares && old(ctx)[0] != 0 then
                && level == (if FirstFree(old(ctx)) < 6 then FirstFree(old(ctx)) else 5)
                && ctx == (if FirstFree(old(ctx)) < 6 then old(ctx)[level := address] else old(ctx)[..1] + old(ctx)[2..] + [address])
                && current == (if old(current) == old(ctx)[1] && FirstFree(old(ctx)) == 6 then 0 else old(current))
                && bound == old(bound) && cache == old(cache) && active == old(active)
              else
                && level == 0 && current == 0 && bound == 0
                && var list := attrib[..Listed(attrib, 0)];
                   if old(Repeats(list)) then
                     ctx == old(ctx) && cache == old(cache) && active == old(active)
                   else
                     ctx == [address, 0, 0, 0, 0, 0] && cache == (if old(active) && !contextZero then [] else list) && !active
    {
      hide Sound;
      if shares && ctx[0] != 0 {
        var parent;
        ret, level, parent := CreateShared(attrib, address);
      } else {
        level := 0;
        ret := CreateAlone(attrib, address, takeoverDeferred);
      }
    }

    predicate AllUsed()
      reads this
    {
      forall i | 0 <= i < |pbufferUsed| :: pbufferUsed[i]
    }

    /** wglCreatePbufferARB. What marks a pbuffer as used is its width: one without any is made, but its slot counts as free,
        and the next one made there would lose its context. */
    method CreatePbuffer(width: nat, hasConfig: bool, address: nat) returns (ok: bool, i: nat)
      requires Valid() && address !in live
      modifies this`pbrc, this`pbufferUsed, this`live
      ensures Valid() <==> width > 0 || !ok || address == 0
      ensures old(CacheAgrees()) ==> CacheAgrees()
      ensures old(AllUsed()) ==> pbufferUsed == old(pbufferUsed)
      ensures !old(AllUsed()) ==>
                && i < MAX_PBUFFER && !old(pbufferUsed)[i] && (forall j | 0 <= j < i :: old(pbufferUsed)[j])
                && pbufferUsed == old(pbufferUsed)[i := width > 0]
      ensures ok ==> i < MAX_PBUFFER && pbrc == old(pbrc)[i := address]
      ensures ok ==> live == if address != 0 then old(live)[address := []] else old(live)
      ensures !ok ==> pbrc == old(pbrc) && live == old(live)
      ensures ok <==> hasConfig && !old(AllUsed())
    {
      i := 0;
      while i < MAX_PBUFFER && pbufferUsed[i]
        invariant i <= MAX_PBUFFER && forall j | 0 <= j < i :: pbufferUsed[j]
      {
        i := i + 1;
      }
      if i == MAX_PBUFFER {
        return false, i;
      }
      pbufferUsed := pbufferUsed[i := width > 0];
      if !hasConfig {
        return false, i;
      }
      NewInSlot(pbrc, ctx, frametap, live.Keys, i, address);
      OthersStay(pbrc, i, address);
      pbrc := pbrc[i := address];
      if address != 0 {
        live := live[address := []];
        assert pbrc[i] == address;
      }
      return true, i;
    }

    /** wglDestroyPbufferARB. */
    method DestroyPbuffer(handle: nat)
      requires Valid()
      modifies this`pbrc, this`pbufferUsed, this`live, this`frametap, this`current
      ensures Valid() && (old(CacheAgrees()) ==> CacheAgrees())
      ensures var i := handle % MAX_PBUFFER; pbrc == old(pbrc)[i := 0] && pbufferUsed == old(pbufferUsed)[i := false]
      ensures current == if old(current) == old(pbrc)[handle % MAX_PBUFFER] then 0 else old(current)
    {
      var i := handle % MAX_PBUFFER;
      if current == pbrc[i] {
        ForgetCurrent();
      }
      Level0Apart(i);
      DestroyPbufferContext(i);
      pbufferUsed := pbufferUsed[i := false];
    }

    lemma Level0Apart(i: nat)
      requires Valid() && i < MAX_PBUFFER
      ensures ctx[0] != 0 ==> ctx[0] in live && ctx[0] != pbrc[i]
    {
    }

    /** A present through the window, on whatever is bound: what a guest has destroyed while it was bound gets an entry
        that outlives it, if there is room for one. */
    method Present()
      requires Valid()
      modifies this`frametap
      ensures Valid() <==> bound == 0 || bound in live || 0 !in old(frametap)
      ensures bound != 0 && 0 in old(frametap) ==> bound in frametap
      ensures bound == 0 || 0 !in old(frametap) ==> frametap == old(frametap)
    {
      var _ := FindContext(bound);
    }

    /** TmpContextPurge: level 0 goes when no level above 1 is there, and the list that described it with it. */
    method TmpContextPurge()
      requires |ctx| == MAX_LVLCNTX && (ctx[0] != 0 ==> Valid())
      modifies this`ctx, this`live, this`frametap, this`current, this`cache
      ensures Valid() <==> old(Valid())
      ensures old(ctx)[0] == 0 ==> live == old(live)
      ensures var purged := old(ctx)[0] != 0 && forall i | 2 <= i < MAX_LVLCNTX :: old(ctx)[i] == 0;
              && ctx == (if purged then old(ctx)[0 := 0] else old(ctx))
              && cache == (if purged then [] else old(cache))
              && current == (if purged && old(current) == old(ctx)[0] then 0 else old(current))
      ensures old(CacheAgrees()) ==> CacheAgrees()
    {
      hide Sound;
      var n := MAX_LVLCNTX;
      while n > 1
        invariant 1 <= n <= MAX_LVLCNTX
        invariant forall i | n <= i < MAX_LVLCNTX :: ctx[i] == 0
      {
        n := n - 1;
        if ctx[n] != 0 {
          break;
        }
      }
      if n == 1 && ctx[0] != 0 {
        if current == ctx[0] {
          ForgetCurrent();
        }
        DestroyLevel(0);
        var _ := CompareNull();
      }
    }

    /** CompareAttribArray without a list. */
    method CompareNull() returns (differs: bool)
      modifies this`cache
      ensures cache == [] && !differs
    {
      cache := [];
      return false;
    }

    lemma NothingLive()
      requires Valid()
      ensures (forall i | 0 <= i < MAX_LVLCNTX :: ctx[i] == 0) && (forall i | 0 <= i < MAX_PBUFFER :: pbrc[i] == 0) ==>
                live.Keys == {} && forall i | 0 <= i < FRAMETAP_MAX_CONTEXTS :: frametap[i] == 0
    {
    }

    /** XCloseDisplay destroys, without a word, every context that is left on the display; what is kept here stays
        sound exactly when there was none. */
    method CloseDisplay()
      requires Valid() && current == 0
      modifies this`live
      ensures live == map[]
      ensures Valid() <==> NoneFrom(ctx, 0) && NoneFrom(pbrc, 0)
    {
      hide NoneShared;
      NothingLive();
      live := map[];
      NothingIsSound(ctx, pbrc, frametap);
    }

    /** MGLWndRelease: level 0 is destroyed, then the display is closed under all the others. */
    method WndRelease()
      requires Valid()
      modifies this`ctx, this`live, this`frametap, this`current, this`bound, this`cache, this`window, this`visual
      ensures !old(window) ==>
                && Valid() && ctx == old(ctx) && live == old(live) && cache == old(cache)
                && window == old(window) && visual == old(visual) && current == old(current) && bound == old(bound)
      ensures old(window) ==>
                && current == 0 && ctx == old(ctx)[0 := 0] && cache == [] && CacheAgrees() && !window && !visual
                && live == map[]
                && (Valid() <==> NoneFrom(old(ctx), 1) && NoneFrom(old(pbrc), 0))
    {
      if window {
        hide Sound, NoneFrom;
        ReleaseLevel0();
        CloseDisplay();
        var _ := CompareNull();
        window, visual := false, false;
      }
    }

    /** MGLPresetPixelFormat: a display and a visual; the window itself comes later. */
    method PresetPixelFormat()
      modifies this`visual
      ensures visual
    {
      visual := true;
    }

    /** cwnd_mesagl. */
    method WindowReady()
      modifies this`window
      ensures window
    {
      window := true;
    }

    /** MGLSetPixelFormat: a window that the GUI has replaced is released first, whatever is left on its display. */
    method SetPixelFormat(windowReplaced: bool)
      requires Valid()
      modifies this`ctx, this`live, this`frametap, this`current, this`bound, this`cache, this`window, this`visual
      ensures visual
      ensures var released := old(visual) && old(window) && windowReplaced;
              && (Valid() <==> !released || (NoneFrom(old(ctx), 1) && NoneFrom(old(pbrc), 0)))
              && (released ==> live == map[] && ctx == old(ctx)[0 := 0] && !window)
              && (!released ==> window == old(window) && forall i | 1 <= i < MAX_LVLCNTX :: ctx[i] == old(ctx)[i])
              && (!released && old(ctx)[0] == 0 ==> ctx == old(ctx) && live == old(live) && cache == old(cache))
              && (released ==> current == 0 && cache == [])
              && (!released ==>
                    var purged := old(ctx)[0] != 0 && forall i | 2 <= i < MAX_LVLCNTX :: old(ctx)[i] == 0;
                    && ctx == (if purged then old(ctx)[0 := 0] else old(ctx)) && cache == (if purged then [] else old(cache))
                    && bound == old(bound)
                    && current == (if purged && old(current) == old(ctx)[0] then 0 else old(current)))
      ensures old(CacheAgrees()) ==> CacheAgrees()
    {
      hide NoneFrom, Sound;
      if visual && windowReplaced {
        WndRelease();
      }
      if !visual {
        PresetPixelFormat();
      }
      TmpContextPurge();
    }

    /** The library is unloaded: all levels above 0 are deleted if the guest has a context, then the window goes if a
        library was loaded. The pbuffers are not looked at. */
    method Unload(hasContext: bool, loaded: bool, takeoverDeferred: bool)
      requires Valid()
      modifies this`ctx, this`live, this`frametap, this`current, this`bound, this`cache, this`active, this`window, this`visual
      ensures Valid() <==> !old(window) || !loaded || ((hasContext || NoneFrom(old(ctx), 1)) && NoneFrom(old(pbrc), 0))
      ensures old(window) && loaded ==> live == map[] && current == 0 && cache == [] && !window && !visual
      ensures !(old(window) && loaded) ==> window == old(window) && visual == old(visual)
      ensures |ctx| == MAX_LVLCNTX && active == (old(active) && !hasContext)
      ensures forall i | 0 <= i < MAX_LVLCNTX ::
                ctx[i] == if i > 0 then (if hasContext then 0 else old(ctx)[i]) else if old(window) && loaded then 0 else old(ctx)[0]
      ensures !(old(window) && loaded) ==>
                && cache == (if hasContext && old(active) && !contextZero then [] else old(cache))
                && current == (if hasContext then 0 else old(current)) && bound == (if hasContext then 0 else old(bound))
      ensures old(CacheAgrees()) ==> CacheAgrees()
    {
      hide Sound;
      if hasContext {
        DeleteContext(0, takeoverDeferred);
      }
      if loaded {
        WndRelease();
      }
    }

    /** Any run of guest calls, with Glide, the display's timer and the window's callback in between, as far as what is kept
        stays sound. The addresses are those of contexts that are not live when the host creates one, or 0. Nothing that
        is kept ever points at a destroyed context until a window is closed over a level or a pbuffer, a destroyed context
        is presented on, or a pbuffer without a width is made: the last of the n calls that ran. As long as no creation
        with a list fails, a request with the same list as before is never answered with a missing context. */
    method Run(calls: seq<GuestCall>) returns (n: nat, ghost trace: seq<Kept>)
      requires Valid()
      modifies this
      ensures AllDid(calls, trace, contextZero) && |trace| == n + 1 && trace[0] == old(State()) && trace[n] == State()
      ensures n <= |calls| && (n < |calls| ==> !Valid())
      ensures !Valid() ==> n > 0 && MayBreak(calls[n - 1])
      ensures old(CacheAgrees()) && (forall k | 0 <= k < n && calls[k].CreateWithAttribs? :: calls[k].address != 0) ==>
                CacheAgrees()
    {
      hide Did, AllDid, Sound, NoneFrom;
      n := 0;
      var sound := true;
      trace := [State()];
      NothingDid(calls, State(), contextZero);
      while n < |calls| && sound
        invariant AllDid(calls, trace, contextZero) && |trace| == n + 1 && trace[0] == old(State()) && trace[n] == State()
        invariant n <= |calls| && (sound <==> Valid())
        invariant !sound ==> n > 0 && MayBreak(calls[n - 1])
        invariant old(CacheAgrees()) && (forall k | 0 <= k < n && calls[k].CreateWithAttribs? :: calls[k].address != 0) ==>
                    CacheAgrees()
      {
        ghost var before := State();
        sound := RunOne(calls[n]);
        DidMore(calls, trace, contextZero, before, State());
        trace := trace + [State()];
        n := n + 1;
      }
    }

    predicate MayBreak(call: GuestCall) {
      call.NewPixelFormat? || call.UnloadLibrary? || call.PresentFrame? || (call.NewPbuffer? && call.width == 0)
    }

    /** Whether a call leaves everything sound, told from the state before it. */
    predicate KeepsSound(call: GuestCall)
      reads this
    {
      match call
      case PresentFrame => bound == 0 || bound in live || 0 !in frametap
      case NewPbuffer(width, hasConfig, address) =>
        width > 0 || !hasConfig || address == 0 || address in live || AllUsed()
      case NewPixelFormat(windowReplaced) =>
        !(visual && window && windowReplaced) || (NoneFrom(ctx, 1) && NoneFrom(pbrc, 0))
      case UnloadLibrary(hasContext, loaded) => !window || !loaded || ((hasContext || NoneFrom(ctx, 1)) && NoneFrom(pbrc, 0))
      case _ => true
    }

    /** Whether a call leaves no list behind that describes nothing, told from the state before it. */
    predicate KeepsList(call: GuestCall)
      reads this
      requires |ctx| == MAX_LVLCNTX
    {
      match call
      case CreateWithAttribs(shares, attrib, address) =>
        !MayGive(State(), call) || (shares && ctx[0] != 0) || ListKept(attrib, address)
      case _ => true
    }

    method RunOne(call: GuestCall) returns (sound: bool)
      requires Valid()
      modifies this
      ensures (Valid() <==> sound) && sound == old(KeepsSound(call))
      ensures old(CacheAgrees()) ==> (CacheAgrees() <==> old(KeepsList(call)))
      ensures |old(ctx)| == MAX_LVLCNTX && |old(pbrc)| == MAX_PBUFFER == |old(pbufferUsed)|
      ensures Did(call, old(State()), State(), contextZero)
    {
      hide Sound, NoneFrom, Did;
      var deferred: bool := *;
      sound := KeepsSound(call);
      match call
      case Create(_, _) => RunCreate(call, deferred);
      case CreateWithAttribs(_, _, _) => RunCreate(call, deferred);
      case Delete(_) => RunLevel(call, deferred);
      case Select(_, _) => RunLevel(call, deferred);
      case NewPbuffer(_, _, _) => RunPbuffer(call);
      case OldPbuffer(_) => RunPbuffer(call);
      case PresentFrame => RunPresent(call, deferred);
      case PurgeTemporary => RunPresent(call, deferred);
      case NewPixelFormat(_) => RunPixelFormat(call);
      case UnloadLibrary(_, _) => RunUnload(call, deferred);
      case _ => RunSwitch(call, deferred);
    }

    method RunCreate(call: GuestCall, deferred: bool)
      requires Valid() && (call.Create? || call.CreateWithAttribs?)
      modifies this
      ensures Valid()
      ensures old(CacheAgrees()) ==> (CacheAgrees() <==> old(KeepsList(call)))
      ensures |old(ctx)| == MAX_LVLCNTX && |old(pbrc)| == MAX_PBUFFER == |old(pbufferUsed)|
      ensures Did(call, old(State()), State(), contextZero)
    {
      hide Sound, NoneFrom;
      match call
      case Create(gDC, address) =>
        if MayGive(State(), call) {
          var _ := CreateContext(gDC, address);
        }
      case CreateWithAttribs(shares, attrib, address) =>
        if MayGive(State(), call) {
          var _, _ := CreateContextAttribs(shares, attrib, address, deferred);
        }
    }

    method RunLevel(call: GuestCall, deferred: bool)
      requires Valid() && (call.Delete? || call.Select?)
      modifies this
      ensures Valid() && (old(CacheAgrees()) ==> CacheAgrees())
      ensures |old(ctx)| == MAX_LVLCNTX && |old(pbrc)| == MAX_PBUFFER == |old(pbufferUsed)|
      ensures Did(call, old(State()), State(), contextZero)
    {
      hide Sound, NoneFrom;
      match call
      case Delete(level) => DeleteContext(level, deferred);
      case Select(cntxRC, level) => MakeCurrent(cntxRC, level, deferred);
    }

    method RunPbuffer(call: GuestCall)
      requires Valid() && (call.NewPbuffer? || call.OldPbuffer?)
      modifies this
      ensures (Valid() <==> old(KeepsSound(call))) && (old(CacheAgrees()) ==> CacheAgrees())
      ensures |old(ctx)| == MAX_LVLCNTX && |old(pbrc)| == MAX_PBUFFER == |old(pbufferUsed)|
      ensures Did(call, old(State()), State(), contextZero)
    {
      hide Sound, NoneFrom;
      match call
      case NewPbuffer(width, hasConfig, address) =>
        if MayGive(State(), call) {
          var _, _ := CreatePbuffer(width, hasConfig, address);
        }
      case OldPbuffer(handle) => DestroyPbuffer(handle);
    }

    method RunPresent(call: GuestCall, deferred: bool)
      requires Valid() && (call.PresentFrame? || call.PurgeTemporary?)
      modifies this
      ensures (Valid() <==> old(KeepsSound(call))) && (old(CacheAgrees()) ==> CacheAgrees())
      ensures |old(ctx)| == MAX_LVLCNTX && |old(pbrc)| == MAX_PBUFFER == |old(pbufferUsed)|
      ensures Did(call, old(State()), State(), contextZero)
    {
      hide Sound, NoneFrom;
      match call
      case PresentFrame =>
        ActivateHandler(true, false, deferred);
        Present();
      case PurgeTemporary => TmpContextPurge();
    }

    method RunPixelFormat(call: GuestCall)
      requires Valid() && call.NewPixelFormat?
      modifies this
      ensures (Valid() <==> old(KeepsSound(call))) && (old(CacheAgrees()) ==> CacheAgrees())
      ensures |old(ctx)| == MAX_LVLCNTX && |old(pbrc)| == MAX_PBUFFER == |old(pbufferUsed)|
      ensures Did(call, old(State()), State(), contextZero)
    {
      hide Sound, NoneFrom;
      SetPixelFormat(call.windowReplaced);
    }

    method RunUnload(call: GuestCall, deferred: bool)
      requires Valid() && call.UnloadLibrary?
      modifies this
      ensures (Valid() <==> old(KeepsSound(call))) && (old(CacheAgrees()) ==> CacheAgrees())
      ensures |old(ctx)| == MAX_LVLCNTX && |old(pbrc)| == MAX_PBUFFER == |old(pbufferUsed)|
      ensures Did(call, old(State()), State(), contextZero)
    {
      hide Sound, NoneFrom;
      Unload(call.hasContext, call.loaded, deferred);
    }

    /** The calls that touch no context. */
    method RunSwitch(call: GuestCall, deferred: bool)
      requires Valid()
      requires || call.TakeBack? || call.GlideTakes? || call.Activate? || call.Deactivate? || call.LoadLibrary?
               || call.ChoosePixelFormat? || call.WindowComes?
      modifies this
      ensures Valid() && (old(CacheAgrees()) ==> CacheAgrees())
      ensures |old(ctx)| == MAX_LVLCNTX && |old(pbrc)| == MAX_PBUFFER == |old(pbufferUsed)|
      ensures Did(call, old(State()), State(), contextZero)
    {
      hide Sound, NoneFrom;
      match call
      case TakeBack(windowReplaced) => RestoreCurrent(windowReplaced);
      case GlideTakes(context) => GlideBinds(context);
      case Activate(activate, delayed) => ActivateHandler(activate, delayed, deferred);
      case Deactivate => DeactivateOnce();
      case LoadLibrary => ForgetCurrent();
      case ChoosePixelFormat => PresetPixelFormat();
      case WindowComes => WindowReady();
    }

    method ReleaseLevel0()
      requires Valid()
      modifies this`ctx, this`live, this`frametap, this`current, this`bound
      ensures Valid() && current == 0 && ctx == old(ctx)[0 := 0]
      ensures NoneFrom(ctx, 0) <==> NoneFrom(old(ctx), 1)
    {
      hide Sound;
      if ctx[0] != 0 {
        ReleaseCurrent();
        DestroyLevel(0);
      }
      ForgetCurrent();
      OnlyTheFirst(old(ctx));
    }
  }

  /** The first creation fails and leaves its list behind; the next one with the same list counts as a repeat, and is
      answered with the context that is not there. */
  method RepeatOfFailure(attrib: seq<int>, address: nat) returns (c: MesaContexts, ret: bool)
    requires Listed(attrib, 0) > 0
    ensures fresh(c) && c.Valid() && !c.CacheAgrees() && !ret
  {
    c := new MesaContexts(false);
    var _ := c.CreateAlone(attrib, 0, false);
    ret := c.CreateAlone(attrib, address, false);
  }

  /** A second context that shares with the first, and a window that is replaced: the new pixel format closes the display
      under level 1, whose slot still names it. */
  method ReplacedUnderLevel(attrib: seq<int>) returns (c: MesaContexts)
    ensures fresh(c) && !c.Valid() && exists i | 0 <= i < |c.ctx| :: c.ctx[i] != 0 && c.ctx[i] !in c.live
  {
    c := new MesaContexts(false);
    c.SetPixelFormat(false);
    c.WindowReady();
    var _ := c.CreateAlone(attrib, 1, false);
    assert FirstFree(c.ctx) == 1;
    var _, _, _ := c.CreateShared(attrib, 2);
    assert c.ctx[1] == 2;
    c.SetPixelFormat(true);
    assert c.ctx[1] == 2;
  }

  /** A pbuffer that is still there when the library is unloaded. */
  method UnloadedUnderPbuffer() returns (c: MesaContexts)
    ensures fresh(c) && !c.Valid() && exists i | 0 <= i < |c.pbrc| :: c.pbrc[i] != 0 && c.pbrc[i] !in c.live
  {
    c := new MesaContexts(false);
    c.SetPixelFormat(false);
    c.WindowReady();
    assert !c.pbufferUsed[0];
    var ok, i := c.CreatePbuffer(1, true, 1);
    assert ok && c.pbrc[i] == 1;
    c.Unload(false, true, false);
    assert c.pbrc[i] == 1 && 1 !in c.live;
  }

  lemma NothingDid(calls: seq<GuestCall>, s: Kept, contextZero: bool)
    ensures AllDid(calls, [s], contextZero)
  {
  }

  lemma DidMore(calls: seq<GuestCall>, trace: seq<Kept>, contextZero: bool, s: Kept, t: Kept)
    requires AllDid(calls, trace, contextZero) && |trace| <= |calls| && trace[|trace| - 1] == s
    requires |s.ctx| == MAX_LVLCNTX && |s.pbrc| == MAX_PBUFFER == |s.pbufferUsed|
    requires Did(calls[|trace| - 1], s, t, contextZero)
    ensures AllDid(calls, trace + [t], contextZero)
  {
    hide Did;
    assert (trace + [t])[..|trace|] == trace;
  }

  lemma OnlyTheFirst(slots: seq<nat>)
    requires |slots| > 0
    ensures NoneFrom(slots[0 := 0], 0) <==> NoneFrom(slots, 1)
  {
    assert forall i | 1 <= i < |slots| :: slots[0 := 0][i] == slots[i];
  }

  lemma NothingIsSound(ctx: seq<nat>, pbrc: seq<nat>, frametap: seq<nat>)
    ensures Sound(ctx, pbrc, 0, {}, frametap) <==>
            && (forall i | 0 <= i < |ctx| :: ctx[i] == 0)
            && (forall i | 0 <= i < |pbrc| :: pbrc[i] == 0)
            && (forall i | 0 <= i < |frametap| :: frametap[i] == 0)
  {
  }

  lemma ShiftedOk(s: seq<nat>, others: seq<nat>, live: set<nat>)
    requires |s| == MAX_LVLCNTX && s[1] == 0 && SlotsOk(s, live) && NoneShared(s, others)
    ensures var t := [s[0], s[2], s[3], s[4], s[5], 0];
            && SlotsOk(t, live) && NoneShared(t, others)
            && forall c | c in s :: c in t
  {
  }

  lemma OthersStay(slots: seq<nat>, n: nat, address: nat)
    requires n < |slots|
    ensures forall c | c in slots && c != slots[n] :: c in slots[n := address]
  {
    forall c | c in slots && c != slots[n]
      ensures c in slots[n := address]
    {
      var i :| 0 <= i < |slots| && slots[i] == c;
      assert slots[n := address][i] == c;
    }
  }

  lemma NewInSlot(slots: seq<nat>, others: seq<nat>, keys: seq<nat>, live: set<nat>, n: nat, address: nat)
    requires SlotsOk(slots, live) && SlotsOk(others, live) && SlotsOk(keys, live) && NoneShared(slots, others)
    requires n < |slots| && slots[n] == 0 && address !in live
    ensures var (slots', live') := (slots[n := address], if address != 0 then live + {address} else live);
            SlotsOk(slots', live') && SlotsOk(others, live') && SlotsOk(keys, live') && NoneShared(slots', others)
  {
  }
}
