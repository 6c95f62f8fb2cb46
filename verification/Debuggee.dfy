/** The debugger's records and the operations that update them in place: breakpoints,
    watchpoints and threads are objects, the lists hold them in order, and every method is
    proved to do to the abstract `model` what the corresponding function of `Engine` says. */
module DebuggeeObjects {
  import opened Engine
  import EngineInvariants
  import LinkedLists
  import opened Stops
  import Branch

  class Breakpoint {
    const id: int
    const location: nat
    const orig: Word
    const temporary: bool
    const hw: bool
    const reg: int
    const stepping: bool
    const slot: Slot
    var hits: nat
    var disabled: bool
    var target: Target

    constructor (id: int, location: nat, orig: Word, temporary: bool, reg: int, stepping: bool, target: Target, slot: Slot)
      ensures View() == Bp(id, location, orig, 0, false, temporary, reg != -1, reg, stepping, target, slot)
    {
      this.id, this.location, this.orig, this.temporary, this.hw, this.reg := id, location, orig, temporary, reg != -1, reg;
      this.stepping, this.target, this.slot, hits, disabled := stepping, target, slot, 0, false;
    }

    function View(): Bp
      reads this
    {
      Bp(id, location, orig, hits, disabled, temporary, hw, reg, stepping, target, slot)
    }
  }

  class Watchpoint {
    const id: int
    const location: nat
    const aligned: nat
    const reg: nat
    const slot: Slot
    var hits: nat
    var target: Target

    constructor (id: int, location: nat, aligned: nat, reg: nat, target: Target, slot: Slot)
      ensures View() == Wp(id, location, aligned, 0, reg, target, slot)
    {
      this.id, this.location, this.aligned, this.reg, this.target, this.slot, hits := id, location, aligned, reg, target, slot, 0;
    }

    function View(): Wp
      reads this
    {
      Wp(id, location, aligned, hits, reg, target, slot)
    }
  }

  class MachThread {
    const port: nat
    const tid: nat
    const id: int
    var focused: bool
    var regs: DebugRegs
    var fl: Flags

    constructor (port: nat, tid: nat, id: int, regs: DebugRegs)
      ensures View() == Thread(port, tid, id, false, regs, NO_FLAGS)
    {
      this.port, this.tid, this.id, this.regs, focused, fl := port, tid, id, regs, false, NO_FLAGS;
    }

    function View(): Thread
      reads this
    {
      Thread(port, tid, id, focused, regs, fl)
    }

    /** get_debug_state, one register changed, set_debug_state. */
    method WriteSlot(b: Bank, r: int, s: Slot)
      modifies this`regs
      ensures View() == Arm(old(View()), b, r, s)
    {
      regs := regs.Put(b, r, s);
    }

    method ClearControl(b: Bank, r: int)
      modifies this`regs
      ensures View() == Disarm(old(View()), b, r)
    {
      if 0 <= r < NUM_SLOTS { regs := regs.Put(b, r, regs.Get(b)[r].(ctl := 0)); }
    }
  }

  predicate Distinct<T(==)>(xs: seq<T>) {
    forall i, j :: 0 <= i < j < |xs| ==> xs[i] != xs[j]
  }

  predicate AgreeBps(xs: seq<Breakpoint>, views: seq<Bp>)
    reads xs
  {
    |views| == |xs| && forall i :: 0 <= i < |xs| ==> views[i] == xs[i].View()
  }

  predicate AgreeWps(xs: seq<Watchpoint>, views: seq<Wp>)
    reads xs
  {
    |views| == |xs| && forall i :: 0 <= i < |xs| ==> views[i] == xs[i].View()
  }

  predicate AgreeThreads(xs: seq<MachThread>, views: seq<Thread>)
    reads xs
  {
    |views| == |xs| && forall i :: 0 <= i < |xs| ==> views[i] == xs[i].View()
  }

  lemma DistinctSnoc<T>(xs: seq<T>, x: T)
    requires Distinct(xs) && x !in xs
    ensures Distinct(xs + [x])
  {
  }

  lemma DistinctRemove<T>(xs: seq<T>, k: nat)
    requires Distinct(xs) && k < |xs|
    ensures Distinct(RemoveAt(xs, k))
  {
  }

  lemma AgreeBpsSnoc(xs: seq<Breakpoint>, views: seq<Bp>, x: Breakpoint)
    requires AgreeBps(xs, views)
    ensures AgreeBps(xs + [x], views + [x.View()])
  {
  }

  lemma AgreeBpsRemove(xs: seq<Breakpoint>, views: seq<Bp>, k: nat)
    requires AgreeBps(xs, views) && k < |xs|
    ensures AgreeBps(RemoveAt(xs, k), RemoveAt(views, k))
  {
  }

  lemma AgreeWpsSnoc(xs: seq<Watchpoint>, views: seq<Wp>, x: Watchpoint)
    requires AgreeWps(xs, views)
    ensures AgreeWps(xs + [x], views + [x.View()])
  {
  }

  lemma AgreeWpsRemove(xs: seq<Watchpoint>, views: seq<Wp>, k: nat)
    requires AgreeWps(xs, views) && k < |xs|
    ensures AgreeWps(RemoveAt(xs, k), RemoveAt(views, k))
  {
  }

  /** The search of linkedlist_delete: the first node that holds `x`. */
  method IndexOf<T(==)>(xs: seq<T>, x: T, ghost k: nat) returns (i: nat)
    requires Distinct(xs) && k < |xs| && xs[k] == x
    ensures i == k
  {
    i := 0;
    while xs[i] != x
      invariant 0 <= i <= k
      decreases k - i
    {
      i := i + 1;
    }
  }

  // ----- the thread list

  method FindThreadFromId(threads: seq<MachThread>, ghost views: seq<Thread>, id: int) returns (t: MachThread?)
    requires AgreeThreads(threads, views)
    ensures var k := FindId(views, id);
            if k < |threads| then t == threads[k] else t == null
  {
    for i := 0 to |threads|
      invariant forall j :: 0 <= j < i ==> threads[j].id != id
    {
      if threads[i].id == id {
        assert views[i].id == id;
        return threads[i];
      }
    }
    t := null;
  }

  method ArmThreads(threads: seq<MachThread>, ghost views: seq<Thread>, g: Target, b: Bank, r: int, s: Slot)
    requires Distinct(threads) && AgreeThreads(threads, views) && Numbered(views)
    modifies threads
    ensures AgreeThreads(threads, ArmAll(views, g, b, r, s))
  {
    if g.All? { ArmEvery(threads, views, b, r, s); }
    else {
      var t := FindThreadFromId(threads, views, g.id);
      if t != null { t.WriteSlot(b, r, s); }
    }
  }

  method ArmEvery(threads: seq<MachThread>, ghost views: seq<Thread>, b: Bank, r: int, s: Slot)
    requires Distinct(threads) && AgreeThreads(threads, views)
    modifies threads
    ensures AgreeThreads(threads, ArmAll(views, All, b, r, s))
  {
    for i := 0 to |threads|
      invariant forall j :: 0 <= j < i ==> threads[j].View() == Arm(views[j], b, r, s)
      invariant forall j :: i <= j < |threads| ==> threads[j].View() == views[j]
    {
      threads[i].WriteSlot(b, r, s);
    }
  }

  method DisarmThreads(threads: seq<MachThread>, ghost views: seq<Thread>, g: Target, b: Bank, r: int)
    requires Distinct(threads) && AgreeThreads(threads, views) && Numbered(views)
    modifies threads
    ensures AgreeThreads(threads, DisarmAll(views, g, b, r))
  {
    if g.All? { DisarmEvery(threads, views, b, r); }
    else {
      var t := FindThreadFromId(threads, views, g.id);
      if t != null { t.ClearControl(b, r); }
    }
  }

  method DisarmEvery(threads: seq<MachThread>, ghost views: seq<Thread>, b: Bank, r: int)
    requires Distinct(threads) && AgreeThreads(threads, views)
    modifies threads
    ensures AgreeThreads(threads, DisarmAll(views, All, b, r))
  {
    for i := 0 to |threads|
      invariant forall j :: 0 <= j < i ==> threads[j].View() == Disarm(views[j], b, r)
      invariant forall j :: i <= j < |threads| ==> threads[j].View() == views[j]
    {
      threads[i].ClearControl(b, r);
    }
  }

  /** Where the walk over an unlinked list and the list itself agree. */
  lemma WalkOn<T>(list: seq<T>, k: nat, walk: seq<T>, i: nat)
    requires k <= |list| && i < |walk| && list[k..] == walk[i..]
    ensures k < |list| && list[k] == walk[i] && list[k + 1..] == walk[i + 1..]
    ensures RemoveAt(list, k)[k..] == walk[i + 1..]
  {
    assert list[k] == list[k..][0] && walk[i] == walk[i..][0];
    assert list[k..][1..] == list[k + 1..] && walk[i..][1..] == walk[i + 1..];
  }

  /** What a delete loop leaves here is what it leaves of the list's nodes. */
  lemma WalksAgree(s: State, c: Choice)
    ensures DeleteFrom(s, c, 0).bps == LinkedLists.Rest(s.bps, (b: Bp) => Chosen(c, b))
  {
    EngineInvariants.DeleteFromSpares(s, c, 0);
    assert s.bps[0..] == s.bps;
    SparedIsRest(s.bps, c);
  }

  lemma {:induction false} SparedIsRest(bps: seq<Bp>, c: Choice)
    ensures EngineInvariants.Spared(bps, c) == LinkedLists.Rest(bps, (b: Bp) => Chosen(c, b))
  {
    if bps != [] { SparedIsRest(bps[1..], c); }
  }

  lemma SetStateIs(s: State, k: nat, disabled: bool)
    requires k < |s.bps|
    ensures var b, s' := s.bps[k], SetState(s, k, disabled);
      && s'.bps == s.bps[k := b.(disabled := disabled)]
      && s'.code == (if b.hw then s.code else Store(s.code, b.location, if disabled then b.orig else BRK))
      && s'.threads == (if !b.hw then s.threads else if disabled then DisarmAll(s.threads, b.target, Breaks, b.reg) else ArmAll(s.threads, b.target, Breaks, b.reg, b.slot))
      && s' == s.(bps := s'.bps, code := s'.code, threads := s'.threads)
  {
    hide DisarmAll, ArmAll, Store;
  }

  lemma AddBpIs(s: State, loc: nat, temporary: bool, stepping: bool, thread: int)
    requires KnownThread(s.threads, thread)
    ensures var b, s' := MakeBp(s, loc, temporary, stepping, thread), AddBp(s, loc, temporary, stepping, thread);
      && b.location == loc && !b.disabled && s'.bps == s.bps + [b]
      && s'.code == (if b.hw then s.code else Store(s.code, loc, BRK))
      && s'.threads == (if b.hw then ArmAll(s.threads, b.target, Breaks, b.reg, b.slot) else s.threads)
      && s' == State(s'.bps, s.wps, s'.threads, s'.code, if temporary then s.nextBp else s.nextBp + 1, s.nextWp, s.numBps + 1, s.numWps, s.hwBps, s.hwWps)
  {
    hide ArmAll, Store, First, Find, FreeReg;
  }

  lemma DeleteEnds(s: State, c: Choice, k: nat)
    requires k == |s.bps|
    ensures DeleteFrom(s, c, k) == s
  {
  }

  lemma OwnedSnoc(regs: seq<int>, r: int)
    ensures forall j :: Owned(regs + [r], j) <==> Owned(regs, j) || r == j
  {
    assert (regs + [r])[|regs|] == r;
    forall j | Owned(regs, j) ensures Owned(regs + [r], j) {
      var k :| 0 <= k < |regs| && regs[k] == j;
      assert (regs + [r])[k] == j;
    }
  }

  /** The flag of one record is set; the others stay. */
  method SetDisabled(bp: Breakpoint, disabled: bool, ghost breakpoints: seq<Breakpoint>, ghost views: seq<Bp>, ghost k: nat)
    requires Distinct(breakpoints) && AgreeBps(breakpoints, views) && k < |breakpoints| && breakpoints[k] == bp
    modifies bp`disabled
    ensures AgreeBps(breakpoints, views[k := views[k].(disabled := disabled)])
  {
    bp.disabled := disabled;
  }

  method CountHit(bp: Breakpoint, ghost breakpoints: seq<Breakpoint>, ghost views: seq<Bp>, ghost k: nat)
    requires Distinct(breakpoints) && AgreeBps(breakpoints, views) && k < |breakpoints| && breakpoints[k] == bp
    modifies bp`hits
    ensures AgreeBps(breakpoints, views[k := views[k].(hits := views[k].hits + 1)])
  {
    bp.hits := bp.hits + 1;
  }

  class Debuggee {
    var breakpoints: seq<Breakpoint>
    var watchpoints: seq<Watchpoint>
    var threads: seq<MachThread>
    var code: Code
    var nextBp: int
    var nextWp: int
    var numBps: int
    var numWps: int
    const hwBps: nat
    const hwWps: nat

    /** The abstract value of all of the above. */
    ghost var model: State

    ghost predicate Valid()
      reads this, breakpoints, watchpoints, threads
    {
      && Shaped(model)
      && Distinct(breakpoints) && Distinct(watchpoints) && Distinct(threads)
      && AgreeBps(breakpoints, model.bps) && AgreeWps(watchpoints, model.wps) && AgreeThreads(threads, model.threads)
      && model == State(model.bps, model.wps, model.threads, code, nextBp, nextWp, numBps, numWps, hwBps, hwWps)
    }

    /** What makes the objects agree with `s`. */
    ghost predicate Agrees(s: State)
      reads this, breakpoints, watchpoints, threads
    {
      && Shaped(s) && Distinct(breakpoints) && Distinct(watchpoints) && Distinct(threads)
      && AgreeBps(breakpoints, s.bps) && AgreeWps(watchpoints, s.wps) && AgreeThreads(threads, s.threads)
      && s == State(s.bps, s.wps, s.threads, code, nextBp, nextWp, numBps, numWps, hwBps, hwWps)
    }

    lemma ValidAgrees()
      requires Valid()
      ensures Agrees(model)
    {
      hide Shaped, Distinct, AgreeBps, AgreeWps, AgreeThreads;
    }

    ghost method Install(s: State)
      requires Agrees(s)
      modifies this`model
      ensures Valid() && model == s
    {
      hide Shaped, Distinct, AgreeBps, AgreeWps, AgreeThreads;
      model := s;
    }

    lemma BpAt(k: nat)
      requires Valid() && k < |breakpoints|
      ensures |model.bps| == |breakpoints| && model.bps[k] == breakpoints[k].View()
    {
      hide Shaped, Distinct, AgreeWps, AgreeThreads;
    }

    lemma WpAt(k: nat)
      requires Valid() && k < |watchpoints|
      ensures |model.wps| == |watchpoints| && model.wps[k] == watchpoints[k].View()
    {
      hide Shaped, Distinct, AgreeBps, AgreeThreads;
    }

    lemma ThreadAt(ti: nat)
      requires Valid() && ti < |threads|
      ensures |model.threads| == |threads| && model.threads[ti] == threads[ti].View()
    {
      hide Shaped, Distinct, AgreeBps, AgreeWps;
    }

    lemma Lengths()
      requires Valid()
      ensures |model.bps| == |breakpoints| && |model.wps| == |watchpoints| && |model.threads| == |threads|
    {
    }

    /** A freshly attached debuggee. */
    constructor (threads: seq<MachThread>, code: Code, hwBps: nat, hwWps: nat, ghost views: seq<Thread>)
      requires hwBps <= NUM_SLOTS && hwWps <= NUM_SLOTS && Distinct(threads) && Numbered(views)
      requires AgreeThreads(threads, views)
      ensures Valid() && model == State([], [], views, code, 1, 1, 0, 0, hwBps, hwWps)
    {
      this.breakpoints, this.watchpoints, this.threads, this.code := [], [], threads, code;
      this.nextBp, this.nextWp, numBps, numWps, this.hwBps, this.hwWps := 1, 1, 0, 0, hwBps, hwWps;
      model := State([], [], views, code, 1, 1, 0, 0, hwBps, hwWps);
    }

    // ----- breakpoints

    /** Mark the owned registers, then look for the first unmarked one. */
    method FindReadyBpReg() returns (r: int)
      requires Valid()
      ensures r == FreeReg(BpRegs(model.bps), hwBps, 0)
    {
      ghost var regs := BpRegs(model.bps);
      var used := new bool[hwBps](_ => false);
      for i := 0 to |breakpoints|
        invariant forall j :: 0 <= j < hwBps ==> (used[j] <==> Owned(regs[..i], j))
      {
        assert regs[..i + 1] == regs[..i] + [regs[i]];
        if breakpoints[i].hw { used[breakpoints[i].reg] := true; }
        OwnedSnoc(regs[..i], regs[i]);
      }
      assert regs[..|breakpoints|] == regs;
      for i := 0 to hwBps
        invariant forall j :: 0 <= j < i ==> used[j]
      {
        if !used[i] { return i; }
      }
      r := -1;
    }

    /** The searches of the list: by address, by address and kind, by ID. */
    method FindBreakpoint(q: Query) returns (found: Breakpoint?, ghost k: nat)
      requires Valid()
      ensures k == First(model.bps, q)
      ensures if k < |breakpoints| then found == breakpoints[k] else found == null
    {
      var i := 0;
      while i < |breakpoints|
        invariant 0 <= i <= |breakpoints|
        invariant forall j :: 0 <= j < i ==> !Matches(q, model.bps[j])
      {
        if Matches(q, breakpoints[i].View()) { return breakpoints[i], i; }
        i := i + 1;
      }
      found, k := null, |breakpoints|;
    }

    /** The target a point gets for the user's thread argument. */
    method ResolveTarget(thread: int) returns (ok: bool, target: Target)
      requires Valid()
      ensures ok == KnownThread(model.threads, thread)
      ensures ok ==> target == TargetFor(model.threads, thread)
    {
      if thread == ALL_THREADS { return true, All; }
      var t := FindThreadFromId(threads, model.threads, thread);
      if t == null { return false, All; }
      return true, Only(thread, t.tid);
    }

    /** The record breakpoint_new fills in. */
    method DraftBreakpoint(loc: nat, temporary: bool, stepping: bool, ghost thread: int, target: Target) returns (bp: Breakpoint)
      requires Valid() && KnownThread(model.threads, thread) && target == TargetFor(model.threads, thread)
      ensures fresh(bp) && bp.View() == MakeBp(model, loc, temporary, stepping, thread)
    {
      var reg := FindReadyBpReg();
      var dup, k := FindBreakpoint(At(loc));
      var word := if dup == null then Fetch(code, loc) else dup.orig;
      var slot := if reg == -1 then Slot(0, 0) else Slot(BREAK_CONTROL, loc - loc % 4);
      bp := new Breakpoint(nextBp, loc, word, temporary, reg, stepping, target, slot);
    }

    /** breakpoint_at_address and set_stepping_breakpoint: arm or patch, and append to the list. */
    method AddBreakpoint(loc: nat, temporary: bool, stepping: bool, thread: int) returns (ok: bool)
      requires Valid()
      modifies this, threads
      ensures Valid() && watchpoints == old(watchpoints) && threads == old(threads)
      ensures ok == KnownThread(old(model).threads, thread)
      ensures model == AddBp(old(model), loc, temporary, stepping, thread)
    {
      assert !KnownThread(model.threads, thread) ==> AddBp(model, loc, temporary, stepping, thread) == model;
      assert Shaped(model) && model == State(model.bps, model.wps, model.threads, code, nextBp, nextWp, numBps, numWps, hwBps, hwWps);
      hide Valid, MakeBp, AddBp, Shaped, ArmAll, Store, KnownThread;
      var known, target := ResolveTarget(thread);
      if known {
        var bp := DraftBreakpoint(loc, temporary, stepping, thread, target);
        AddBpIs(model, loc, temporary, stepping, thread);
        AddBpShaped(model, loc, temporary, stepping, thread);
        ListBreakpoint(bp, temporary, AddBp(model, loc, temporary, stepping, thread));
      }
      ok := known;
    }

    /** The new state of the registers or the code, and of the list: `s`. */
    method ListBreakpoint(bp: Breakpoint, temporary: bool, ghost s: State)
      requires Valid() && bp !in breakpoints && Shaped(s) && !bp.disabled && s.bps == model.bps + [bp.View()]
      requires s.code == if bp.hw then code else Store(code, bp.location, BRK)
      requires s.threads == if bp.hw then ArmAll(model.threads, bp.target, Breaks, bp.reg, bp.slot) else model.threads
      requires s == State(s.bps, model.wps, s.threads, s.code, if temporary then nextBp else nextBp + 1, nextWp, numBps + 1, numWps, hwBps, hwWps)
      modifies this, threads
      ensures Valid() && watchpoints == old(watchpoints) && threads == old(threads) && model == s
    {
      ValidAgrees();
      DistinctSnoc(breakpoints, bp);
      AgreeBpsSnoc(breakpoints, model.bps, bp);
      assert Numbered(model.threads);
      hide Valid, Shaped, Distinct, AgreeBps, AgreeWps, AgreeThreads, ArmAll, Numbered, Store;
      WriteState(bp, false, model.threads);
      Append(bp, temporary, s);
    }

    method Append(bp: Breakpoint, temporary: bool, ghost s: State)
      requires Distinct(breakpoints + [bp]) && Distinct(watchpoints) && Distinct(threads) && Shaped(s)
      requires AgreeBps(breakpoints + [bp], s.bps) && AgreeWps(watchpoints, s.wps) && AgreeThreads(threads, s.threads)
      requires s == State(s.bps, s.wps, s.threads, code, if temporary then nextBp else nextBp + 1, nextWp, numBps + 1, numWps, hwBps, hwWps)
      modifies this
      ensures Valid() && watchpoints == old(watchpoints) && threads == old(threads) && model == s
    {
      breakpoints := breakpoints + [bp];
      if !temporary { nextBp := nextBp + 1; }
      numBps := numBps + 1;
      model := s;
    }

    /** The registers of the targeted threads, or the code. */
    method WriteState(bp: Breakpoint, disabled: bool, ghost views: seq<Thread>)
      requires Distinct(threads) && AgreeThreads(threads, views) && Numbered(views)
      modifies this`code, threads
      ensures AgreeThreads(threads, if !bp.hw then views else if disabled then DisarmAll(views, bp.target, Breaks, bp.reg)
                                    else ArmAll(views, bp.target, Breaks, bp.reg, bp.slot))
      ensures code == if bp.hw then old(code) else Store(old(code), bp.location, if disabled then bp.orig else BRK)
    {
      if !bp.hw { code := Store(code, bp.location, if disabled then bp.orig else BRK); }
      else if disabled { DisarmThreads(threads, views, bp.target, Breaks, bp.reg); }
      else { ArmThreads(threads, views, bp.target, Breaks, bp.reg, bp.slot); }
    }

    /** Registers or code, then the record. */
    method Switch(bp: Breakpoint, disabled: bool, ghost s: State, ghost k: nat)
      requires Distinct(threads) && AgreeThreads(threads, s.threads) && Numbered(s.threads) && AgreeWps(watchpoints, s.wps)
      requires Distinct(breakpoints) && AgreeBps(breakpoints, s.bps) && k < |breakpoints| && breakpoints[k] == bp
      modifies this`code, threads, bp
      ensures AgreeThreads(threads, if !bp.hw then s.threads else if disabled then DisarmAll(s.threads, bp.target, Breaks, bp.reg)
                                    else ArmAll(s.threads, bp.target, Breaks, bp.reg, bp.slot))
      ensures AgreeBps(breakpoints, s.bps[k := s.bps[k].(disabled := disabled)]) && AgreeWps(watchpoints, s.wps)
      ensures code == if bp.hw then old(code) else Store(old(code), bp.location, if disabled then bp.orig else BRK)
      ensures bp.target == old(bp.target)
    {
      hide Distinct, AgreeBps, AgreeWps, AgreeThreads, DisarmAll, ArmAll, Store, Numbered;
      WriteState(bp, disabled, s.threads);
      SetDisabled(bp, disabled, breakpoints, s.bps, k);
    }

    /** bp_set_state_internal. */
    method SetBpState(bp: Breakpoint, disabled: bool, ghost k: nat)
      requires Valid() && k < |breakpoints| && breakpoints[k] == bp
      modifies this`code, this`model, threads, bp
      ensures Valid() && model == SetState(old(model), k, disabled)
    {
      BpAt(k);
      SetStateShaped(model, k, disabled);
      SetStateIs(model, k, disabled);
      ValidAgrees();
      assert Numbered(model.threads);
      hide Valid, Shaped, Distinct, AgreeBps, AgreeWps, AgreeThreads, DisarmAll, ArmAll, Store, SetState, Numbered;
      ghost var s := SetState(model, k, disabled);
      Switch(bp, disabled, model, k);
      Install(s);
    }

    /** linkedlist_delete: unlink the first node that holds `bp`. */
    method Unlink(bp: Breakpoint, ghost k: nat)
      requires Valid() && k < |breakpoints| && breakpoints[k] == bp
      modifies this`breakpoints, this`numBps, this`model
      ensures breakpoints == RemoveAt(old(breakpoints), k)
      ensures Valid() && model == old(model).(bps := RemoveAt(old(model).bps, k), numBps := old(numBps) - 1)
    {
      var i := IndexOf(breakpoints, bp, k);
      DistinctRemove(breakpoints, i);
      AgreeBpsRemove(breakpoints, model.bps, i);
      UnlinkShaped(model, i);
      breakpoints := RemoveAt(breakpoints, i);
      numBps := numBps - 1;
      model := model.(bps := RemoveAt(model.bps, k), numBps := numBps);
    }

    /** bp_delete_internal. */
    method DeleteBp(bp: Breakpoint, ghost k: nat)
      requires Valid() && k < |breakpoints| && breakpoints[k] == bp
      modifies this, threads, bp
      ensures Valid() && watchpoints == old(watchpoints) && threads == old(threads)
      ensures breakpoints == RemoveAt(old(breakpoints), k)
      ensures model == DeleteAt(old(model), k)
    {
      SetBpState(bp, true, k);
      Unlink(bp, k);
    }

    /** breakpoint_hit. */
    method HitBp(bp: Breakpoint, ghost k: nat)
      requires Valid() && k < |breakpoints| && breakpoints[k] == bp
      modifies this, threads, bp
      ensures Valid() && watchpoints == old(watchpoints) && threads == old(threads)
      ensures breakpoints == if bp.temporary then RemoveAt(old(breakpoints), k) else old(breakpoints)
      ensures model == HitAt(old(model), k)
    {
      BpAt(k);
      ValidAgrees();
      assert !bp.temporary ==> Shaped(HitAt(model, k));
      hide Valid, Shaped, Distinct, AgreeBps, AgreeWps, AgreeThreads, DeleteAt;
      if bp.temporary { DeleteBp(bp, k); }
      else {
        CountHit(bp, breakpoints, model.bps, k);
        Install(HitAt(model, k));
      }
    }

    /** breakpoint_enable and breakpoint_disable. */
    method SetBpStateById(id: int, disabled: bool) returns (found: bool)
      requires Valid()
      modifies this`code, this`model, threads, breakpoints
      ensures Valid() && model == SetStateById(old(model), id, disabled)
      ensures found <==> First(old(model).bps, WithId(id)) < |breakpoints|
    {
      var bp, k := FindBreakpoint(WithId(id));
      if bp != null { SetBpState(bp, disabled, k); }
      found := bp != null;
    }

    /** breakpoint_delete. */
    method DeleteBpById(id: int) returns (found: bool)
      requires Valid()
      modifies this, threads, breakpoints
      ensures Valid() && watchpoints == old(watchpoints) && threads == old(threads)
      ensures model == DeleteById(old(model), id)
      ensures found <==> First(old(model).bps, WithId(id)) < |old(breakpoints)|
    {
      var bp, k := FindBreakpoint(WithId(id));
      if bp != null { DeleteBp(bp, k); }
      found := bp != null;
    }

    method SetIfChosen(c: Choice, disabled: bool, i: nat)
      requires Valid() && i < |breakpoints|
      modifies this`code, this`model, threads, breakpoints
      ensures Valid() && model == SetChosen(old(model), c, disabled, i)
    {
      BpAt(i);
      hide Valid, SetState;
      if Chosen(c, breakpoints[i].View()) { SetBpState(breakpoints[i], disabled, i); }
    }

    /** The enable and disable loops. */
    method SetBpStates(c: Choice, disabled: bool)
      requires Valid()
      modifies this`code, this`model, threads, breakpoints
      ensures Valid() && model == SetStates(old(model), c, disabled, 0)
    {
      hide Valid, SetChosen;
      Lengths();
      ghost var s := SetStates(model, c, disabled, 0);
      var n := |breakpoints|;
      var i := 0;
      while i < n
        invariant Valid() && i <= n == |breakpoints| == |model.bps| && s == SetStates(model, c, disabled, i)
      {
        SetIfChosen(c, disabled, i);
        i := i + 1;
      }
    }

    /** The delete loops. The walk follows the links of nodes that are being unlinked; that it sees
        the list as it was is LinkedLists.DeleteMatching, and that both leave the same WalksAgree. */
    method DeleteBps(c: Choice)
      requires Valid()
      modifies this, threads, breakpoints
      ensures Valid() && watchpoints == old(watchpoints) && threads == old(threads)
      ensures model == DeleteFrom(old(model), c, 0)
    {
      hide Valid, DeleteFrom;
      Lengths();
      ghost var s := model;
      var walk := breakpoints;
      ghost var k := 0;
      for i := 0 to |walk|
        invariant Valid() && watchpoints == old(watchpoints) && threads == old(threads)
        invariant 0 <= k <= |breakpoints| && breakpoints[k..] == walk[i..] && k <= |model.bps|
        invariant DeleteFrom(model, c, k) == DeleteFrom(s, c, 0)
      {
        WalkOn(breakpoints, k, walk, i);
        BpAt(k);
        EngineInvariants.DeleteRound(model, c, k);
        if Chosen(c, walk[i].View()) {
          DeleteBp(walk[i], k);
        } else {
          k := k + 1;
        }
        Lengths();
      }
      Lengths();
      assert |breakpoints[k..]| == 0;
      DeleteEnds(model, c, k);
    }

    // ----- watchpoints

    method FindReadyWpReg() returns (r: int)
      requires Valid()
      ensures r == FreeReg(WpRegs(model.wps), hwWps, 0)
    {
      ghost var regs := WpRegs(model.wps);
      var used := new bool[hwWps](_ => false);
      for i := 0 to |watchpoints|
        invariant forall j :: 0 <= j < hwWps ==> (used[j] <==> Owned(regs[..i], j))
      {
        assert regs[..i + 1] == regs[..i] + [regs[i]];
        used[watchpoints[i].reg] := true;
        OwnedSnoc(regs[..i], regs[i]);
      }
      assert regs[..|watchpoints|] == regs;
      for i := 0 to hwWps
        invariant forall j :: 0 <= j < i ==> used[j]
      {
        if !used[i] { return i; }
      }
      r := -1;
    }

    /** watchpoint_new and watchpoint_at_address. */
    method AddWatchpoint(loc: nat, len: nat, lsc: nat, thread: int, readable: bool) returns (ok: bool)
      requires Valid() && lsc < 4
      modifies this, threads
      ensures Valid() && breakpoints == old(breakpoints) && threads == old(threads)
      ensures ok == GoodWatch(old(model), len, lsc, thread, readable)
      ensures model == AddWp(old(model), loc, len, lsc, thread, readable)
    {
      if len == 0 || len > 8 { return false; }
      var known, target := ResolveTarget(thread);
      if !known || !readable { return false; }
      var reg := FindReadyWpReg();
      if reg == -1 { return false; }
      var wp := new Watchpoint(nextWp, loc, loc - loc % 8, reg, target, WatchSlot(loc, len, lsc));
      assert wp.View() == MakeWp(model, loc, len, lsc, thread, readable);
      ListWatchpoint(wp, loc, len, lsc, thread, readable);
      ok := true;
    }

    method ListWatchpoint(wp: Watchpoint, ghost loc: nat, ghost len: nat, ghost lsc: nat, ghost thread: int, ghost readable: bool)
      requires Valid() && GoodWatch(model, len, lsc, thread, readable) && wp !in watchpoints
      requires wp.View() == MakeWp(model, loc, len, lsc, thread, readable)
      modifies this, threads
      ensures Valid() && breakpoints == old(breakpoints) && threads == old(threads)
      ensures model == AddWp(old(model), loc, len, lsc, thread, readable)
    {
      DistinctSnoc(watchpoints, wp);
      AgreeWpsSnoc(watchpoints, model.wps, wp);
      ghost var s := AddWp(model, loc, len, lsc, thread, readable);
      AddWpShaped(model, loc, len, lsc, thread, readable);
      assert s.wps == model.wps + [wp.View()] && s.numWps == numWps + 1;
      ArmThreads(threads, model.threads, wp.target, Watches, wp.reg, wp.slot);
      assert AgreeThreads(threads, s.threads);
      AppendWp(wp, s);
    }

    method AppendWp(wp: Watchpoint, ghost s: State)
      requires Distinct(breakpoints) && Distinct(watchpoints + [wp]) && Distinct(threads) && Shaped(s)
      requires AgreeBps(breakpoints, s.bps) && AgreeWps(watchpoints + [wp], s.wps) && AgreeThreads(threads, s.threads)
      requires s == State(s.bps, s.wps, s.threads, code, nextBp, nextWp + 1, numBps, numWps + 1, hwBps, hwWps)
      modifies this
      ensures Valid() && breakpoints == old(breakpoints) && threads == old(threads) && model == s
    {
      watchpoints := watchpoints + [wp];
      nextWp, numWps := nextWp + 1, numWps + 1;
      model := s;
    }

    /** watchpoint_delete and wp_delete_internal. */
    method DeleteWatchpoint(id: int) returns (found: bool)
      requires Valid()
      modifies this, threads
      ensures Valid() && breakpoints == old(breakpoints) && threads == old(threads)
      ensures found <==> FirstWp(old(model).wps, id) < |old(watchpoints)|
      ensures model == DeleteWpById(old(model), id)
    {
      var i := 0;
      while i < |watchpoints| && watchpoints[i].id != id
        invariant 0 <= i <= |watchpoints|
        invariant forall j :: 0 <= j < i ==> model.wps[j].id != id
      {
        i := i + 1;
      }
      found := i < |watchpoints|;
      if found {
        UnlinkWatchpoint(watchpoints[i], i);
      }
    }

    /** wp_delete_internal: disarm, then linkedlist_delete. */
    method UnlinkWatchpoint(wp: Watchpoint, ghost k: nat)
      requires Valid() && k < |watchpoints| && watchpoints[k] == wp
      modifies this, threads
      ensures Valid() && breakpoints == old(breakpoints) && threads == old(threads)
      ensures watchpoints == RemoveAt(old(watchpoints), k) && model == DeleteWpAt(old(model), k)
    {
      WpAt(k);
      ValidAgrees();
      AgreeWpsRemove(watchpoints, model.wps, k);
      DistinctRemove(watchpoints, k);
      DeleteWpShaped(model, k);
      assert Numbered(model.threads);
      hide Valid, Shaped, Distinct, AgreeBps, AgreeWps, AgreeThreads, DisarmAll, Numbered;
      DisarmThreads(threads, model.threads, wp.target, Watches, wp.reg);
      DropWatchpoint(wp, k);
      Install(DeleteWpAt(model, k));
    }

    /** linkedlist_delete, and the count. */
    method DropWatchpoint(wp: Watchpoint, ghost k: nat)
      requires Distinct(watchpoints) && k < |watchpoints| && watchpoints[k] == wp
      modifies this`watchpoints, this`numWps
      ensures watchpoints == RemoveAt(old(watchpoints), k) && numWps == old(numWps) - 1
    {
      var i := IndexOf(watchpoints, wp, k);
      watchpoints := RemoveAt(watchpoints, i);
      numWps := numWps - 1;
    }

    // ----- thread notes

    method SetFlags(t: MachThread, fl: Flags, ghost ti: nat)
      requires Valid() && ti < |threads| && threads[ti] == t
      modifies this`model, t`fl
      ensures Valid() && model == WithFlags(old(model), ti, fl) && t.fl == fl
    {
      t.fl := fl;
      model := WithFlags(model, ti, fl);
    }

    /** get_debug_state, the step bit of MDSCR_EL1, set_debug_state. */
    method SetStep(t: MachThread, on: bool, ghost ti: nat)
      requires Valid() && ti < |threads| && threads[ti] == t
      modifies this`model, t`regs
      ensures Valid() && model == WithStep(old(model), ti, on)
    {
      t.regs := t.regs.(step := on);
      model := WithStep(model, ti, on);
    }

    method FocusedThread() returns (t: MachThread?, ghost ti: nat)
      requires Valid()
      ensures ti == FirstFocused(model.threads)
      ensures if ti < |threads| then t == threads[ti] else t == null
    {
      var i := 0;
      while i < |threads|
        invariant 0 <= i <= |threads|
        invariant forall j :: 0 <= j < i ==> !model.threads[j].focused
      {
        if threads[i].focused { return threads[i], i; }
        i := i + 1;
      }
      t, ti := null, |threads|;
    }

    method ThreadFromPort(port: nat) returns (t: MachThread?, ghost ti: nat)
      requires Valid()
      ensures ti == FindPort(model.threads, port)
      ensures if ti < |threads| then t == threads[ti] else t == null
    {
      var i := 0;
      while i < |threads|
        invariant 0 <= i <= |threads|
        invariant forall j :: 0 <= j < i ==> model.threads[j].port != port
      {
        if threads[i].port == port { return threads[i], i; }
        i := i + 1;
      }
      t, ti := null, |threads|;
    }

    method SetFocusFlag(t: MachThread, on: bool, ghost ti: nat)
      requires Valid() && ti < |threads| && threads[ti] == t
      modifies this`model, t`focused
      ensures Valid() && model == old(model).(threads := old(model).threads[ti := old(model).threads[ti].(focused := on)])
    {
      t.focused := on;
      model := model.(threads := model.threads[ti := model.threads[ti].(focused := on)]);
    }

    /** set_focused_thread: the previous focus is cleared after the new one is set. */
    method FocusThread(port: nat)
      requires Valid()
      modifies this`model, threads
      ensures Valid() && model == old(model).(threads := SetFocus(old(model).threads, port))
    {
      var prev, p := FocusedThread();
      var next, n := ThreadFromPort(port);
      if next == null { return; }
      SetFocusFlag(next, true, n);
      if prev != null { SetFocusFlag(prev, false, p); }
    }

    /** watchpoint_hit. */
    method HitWp(wp: Watchpoint, ghost k: nat)
      requires Valid() && k < |watchpoints| && watchpoints[k] == wp
      modifies this`model, wp
      ensures Valid() && model == HitWpAt(old(model), k)
    {
      assert model.wps[k] == wp.View();
      wp.hits := wp.hits + 1;
      model := HitWpAt(model, k);
    }
  }
}
