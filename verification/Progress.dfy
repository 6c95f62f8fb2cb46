/** Re-arming and progress on one thread: runs in which the user sets, deletes, continues and
    steps into instructions, with breakpoints for all threads and no watchpoints. */
module Progress {
  import opened Engine
  import opened EngineInvariants
  import opened Stops
  import opened StopsInvariants
  import opened Transparency

  predicate Allowed(e: Event) {
    match e
    case Tick(ti) => true
    case SetBp(loc, thread) => thread == ALL_THREADS
    case DeleteBp(_) => true
    case DeleteAllBps => true
    case Continue => true
    case Step(over, pc) => !over
    case _ => false
  }

  /** Ordinary breakpoints for all threads, with distinct IDs below `next`. */
  predicate PlainBps(bps: seq<Bp>, next: int) {
    && (forall k :: 0 <= k < |bps| ==> bps[k].Normal() && bps[k].target.All? && bps[k].id < next)
    && (forall i, j :: 0 <= i < j < |bps| ==> bps[i].id != bps[j].id)
  }

  /** One focused thread with plain breakpoints and no watchpoints. */
  predicate Plain(s: State) {
    && |s.threads| == 1 && s.threads[0].focused
    && s.wps == [] && !s.threads[0].fl.justHitWp && !s.threads[0].fl.stepKind.StepOver?
    && PlainBps(s.bps, s.nextBp)
  }

  /** Hit counts and enabling are not part of being plain. */
  predicate SameBps(bps: seq<Bp>, bps': seq<Bp>) {
    && |bps'| == |bps|
    && forall k :: 0 <= k < |bps| ==> bps'[k] == bps[k].(hits := bps'[k].hits, disabled := bps'[k].disabled)
  }

  lemma SameStayPlain(bps: seq<Bp>, bps': seq<Bp>, next: int)
    requires PlainBps(bps, next) && SameBps(bps, bps')
    ensures PlainBps(bps', next)
  {
  }

  predicate AllEnabled(bps: seq<Bp>) {
    forall k :: 0 <= k < |bps| ==> !bps[k].disabled
  }

  /** A breakpoint is disabled only while the thread's step bit is pending. */
  predicate Rearmed(s: State)
    requires |s.threads| == 1
  {
    s.threads[0].regs.step || AllEnabled(s.bps)
  }

  predicate Good(s: State) {
    Plain(s) && Rearmed(s)
  }

  // ----- what the primitive operations leave alone

  predicate SameNotes(s: State, s': State) {
    && |s.threads| == 1 && |s'.threads| == 1
    && s'.threads[0].fl == s.threads[0].fl
    && s'.threads[0].port == s.threads[0].port && s'.threads[0].focused == s.threads[0].focused
    && s'.threads[0].regs.step == s.threads[0].regs.step
    && s'.wps == s.wps && s'.nextBp == s.nextBp
  }

  lemma {:induction false} SetStatesEffect(s: State, c: Choice, d: bool, k: nat)
    requires k <= |s.bps| && |s.threads| == 1
    ensures SameNotes(s, SetStates(s, c, d, k))
    ensures forall i :: 0 <= i < |s.bps| ==>
              SetStates(s, c, d, k).bps[i] == if k <= i && Chosen(c, s.bps[i]) then s.bps[i].(disabled := d) else s.bps[i]
    decreases |s.bps| - k
  {
    if k < |s.bps| {
      SetChosenEffect(s, c, d, k);
      SetStatesEffect(SetChosen(s, c, d, k), c, d, k + 1);
    }
  }

  lemma SetChosenEffect(s: State, c: Choice, d: bool, k: nat)
    requires k < |s.bps| && |s.threads| == 1
    ensures SameNotes(s, SetChosen(s, c, d, k))
    ensures SetChosen(s, c, d, k).bps == if Chosen(c, s.bps[k]) then s.bps[k := s.bps[k].(disabled := d)] else s.bps
  {
  }

  lemma SetStateByIdEffect(s: State, id: int, d: bool)
    requires |s.threads| == 1
    ensures SameNotes(s, SetStateById(s, id, d))
    ensures var k := First(s.bps, WithId(id));
            SetStateById(s, id, d).bps == if k < |s.bps| then s.bps[k := s.bps[k].(disabled := d)] else s.bps
  {
  }

  lemma DeleteByIdEffect(s: State, id: int)
    requires |s.threads| == 1
    ensures SameNotes(s, DeleteById(s, id))
    ensures var k := First(s.bps, WithId(id));
            DeleteById(s, id).bps == if k < |s.bps| then s.bps[..k] + s.bps[k + 1..] else s.bps
  {
    var k := First(s.bps, WithId(id));
    if k < |s.bps| { DeleteAtUnlinks(s, k); }
  }

  lemma {:induction false} DeleteFromEffect(s: State, c: Choice, k: nat)
    requires k <= |s.bps| && |s.threads| == 1
    ensures SameNotes(s, DeleteFrom(s, c, k))
    decreases |s.bps| - k
  {
    if k < |s.bps| {
      if Chosen(c, s.bps[k]) { DeleteFromEffect(DeleteAt(s, k), c, k); } else { DeleteFromEffect(s, c, k + 1); }
    }
  }

  /** With no stepping breakpoints, `continue` has none to delete. */
  lemma {:induction false} NoSteppings(s: State, k: nat)
    requires k <= |s.bps| && forall i :: 0 <= i < |s.bps| ==> !s.bps[i].stepping
    ensures DeleteFrom(s, Steppings, k) == s
    decreases |s.bps| - k
  {
    if k < |s.bps| { NoSteppings(s, k + 1); }
  }

  // ----- what one stop does

  lemma HandleSingleStepEffect(s: State)
    requires |s.threads| == 1 && forall k :: 0 <= k < |s.bps| ==> s.bps[k].Normal()
    ensures var o := HandleSingleStep(s, 0);
            && |o.s.bps| == |s.bps| && (forall i :: 0 <= i < |s.bps| ==> o.s.bps[i] == s.bps[i].(disabled := false))
            && SameNotes(WithFlags(s, 0, o.s.threads[0].fl), o.s)
            && o.s.threads[0].fl.justHitWp == s.threads[0].fl.justHitWp && !o.s.threads[0].fl.justHitBp
            && (!s.threads[0].fl.stepKind.StepOver? ==> (o.resume <==> s.threads[0].fl.justHitBp && !s.threads[0].fl.isStepping))
  {
    hide SetStates, SetStateById, First;
    SetStatesEffect(s, Normals, false, 0);
    var s1 := SetStates(s, Normals, false, 0);
    SetStateByIdEffect(s1, s1.threads[0].fl.lastBpId, false);
  }

  /** After a handled software step every breakpoint is enabled again; the debuggee resumes by
      itself exactly when it was stepping past a breakpoint and not on the user's behalf. */
  lemma StepStopEnables(s: State, pc: nat)
    requires Plain(s)
    ensures var o := StepStop(s, 0, pc);
            && Good(o.s) && AllEnabled(o.s.bps)
            && (o.resume <==> s.threads[0].fl.justHitBp && !s.threads[0].fl.isStepping)
            && o.s.threads[0].regs.step == s.threads[0].regs.step
            && !o.s.threads[0].fl.justHitBp && !o.s.threads[0].fl.isStepping
  {
    var k := First(s.bps, NormalAt(pc));
    var s1 := if s.threads[0].fl.isStepping && k < |s.bps| then HitAt(s, k) else s;
    assert s1 == s.(bps := s1.bps) && SameBps(s.bps, s1.bps);
    SameStayPlain(s.bps, s1.bps, s.nextBp);
    StepStopRest(s1);
  }

  lemma StepStopRest(s: State)
    requires Plain(s)
    ensures var o := HandleSingleStep(s, 0);
            var s' := WithFlags(o.s, 0, o.s.threads[0].fl.(stepKind := StepNone, isStepping := false));
            && Good(s') && AllEnabled(s'.bps) && s'.threads[0].regs.step == s.threads[0].regs.step && !s'.threads[0].fl.justHitBp
            && (o.resume <==> s.threads[0].fl.justHitBp && !s.threads[0].fl.isStepping)
  {
    HandleSingleStepEffect(s);
    var o := HandleSingleStep(s, 0);
    SameStayPlain(s.bps, o.s.bps, s.nextBp);
  }

  /** The thread after a breakpoint exception found breakpoint `b`. */
  function AfterHit(t: Thread, b: Bp): Thread {
    t.(fl := t.fl.(justHitBp := true, justHitSw := b.hw ==> t.fl.justHitSw, lastBpId := b.id), regs := t.regs.(step := true))
  }

  lemma NormalHitEffect(s: State, k: nat)
    requires Plain(s) && k < |s.bps|
    ensures var b := s.bps[k];
            var fl := s.threads[0].fl;
            NormalHit(s, 0, k) ==
            if b.hw then s.(bps := s.bps[k := b.(hits := b.hits + 1)],
                            threads := [s.threads[0].(fl := fl.(lastBpId := b.id))])
            else s.(bps := s.bps[k := b.(hits := b.hits + 1, disabled := true)],
                    code := Store(s.code, b.location, b.orig),
                    threads := [s.threads[0].(fl := fl.(justHitSw := true, lastBpId := b.id))])
  {
    var b := s.bps[k];
    if !b.hw {
      var s2 := WithFlags(HitAt(s, k), 0, s.threads[0].fl.(justHitSw := true));
      var j := First(s2.bps, WithId(b.id));
      assert s2.bps[k].id == b.id && s2.bps[j].id == b.id;
      assert j == k;
      assert s2.bps[k := s2.bps[k].(disabled := true)] == s.bps[k := b.(hits := b.hits + 1, disabled := true)];
    }
  }

  /** A breakpoint exception: the first breakpoint at `addr` counts the hit and, if it is a
      software one, gives the original word back; the thread will step. */
  lemma BreakStopEffect(s: State, addr: nat)
    requires Plain(s)
    ensures var o := BreakStop(s, 0, addr);
            var k := First(s.bps, NormalAt(addr));
            if k == |s.bps| then
              o == Outcome(WithStep(WithFlags(s, 0, s.threads[0].fl.(justHitBp := true)), 0, true), true)
            else
              var b := s.bps[k];
              o == Outcome(
                s.(bps := s.bps[k := if b.hw then b.(hits := b.hits + 1) else b.(hits := b.hits + 1, disabled := true)],
                   code := if b.hw then s.code else Store(s.code, b.location, b.orig),
                   threads := [AfterHit(s.threads[0], b)]), false)
  {
    var k := First(s.bps, NormalAt(addr));
    var s0 := WithFlags(s, 0, s.threads[0].fl.(justHitBp := true));
    assert s0.threads == [s.threads[0].(fl := s.threads[0].fl.(justHitBp := true))];
    assert First(s0.bps, SteppingAt(addr)) == |s0.bps|;
    if k < |s.bps| {
      NormalHitEffect(s0, k);
      hide NormalHit, PlainBps;
    }
  }

  lemma BreakStopGood(s: State, addr: nat)
    requires Good(s)
    ensures var o := BreakStop(s, 0, addr);
            Good(o.s) && o.s.threads[0].regs.step && o.s.threads[0].fl.justHitBp
            && o.s.threads[0].fl.isStepping == s.threads[0].fl.isStepping
  {
    BreakStopEffect(s, addr);
    hide BreakStop, First, PlainBps;
    SameStayPlain(s.bps, BreakStop(s, 0, addr).s.bps, s.nextBp);
  }

  // ----- the re-arm invariant

  lemma DeliverGood<M>(cpu: Cpu<M>, r: Run<M>, exc: Exc)
    requires Plain(r.s) && exc.Break?
    requires exc.subcode != 0 ==> Rearmed(r.s)
    ensures Good(Deliver(cpu, r, r.s.threads[0].port, exc).s)
  {
    if exc.subcode == 0 { StepStopEnables(r.s, cpu.pc(r.m, 0)); } else { BreakStopGood(r.s, exc.subcode); }
  }

  lemma TickGood<M>(cpu: Cpu<M>, r: Run<M>)
    requires Good(r.s)
    ensures Good(Turn(cpu, r, 0).s)
  {
    var pc := cpu.pc(r.m, 0);
    var word := Fetch(r.s.code, pc);
    var t := r.s.threads[0];
    if word == BRK || (!t.regs.step && HwMatch(t, pc)) { DeliverGood(cpu, r, Break(pc)); }
    else if t.regs.step {
      var r1 := Run(WithStep(r.s, 0, false), cpu.exec(r.m, 0, word), r.running, r.trace + [Insn(0, pc, word)]);
      DeliverGood(cpu, r1, Break(0));
    }
  }

  lemma SetBpGood(s: State, loc: nat)
    requires Good(s)
    ensures Good(AddBp(s, loc, false, false, ALL_THREADS))
  {
    var b := MakeBp(s, loc, false, false, ALL_THREADS);
    var s' := AddBp(s, loc, false, false, ALL_THREADS);
    assert s'.bps == s.bps + [b];
    assert PlainBps(s'.bps, s'.nextBp);
  }

  lemma RemovalStaysPlain(bps: seq<Bp>, k: nat, next: int)
    requires PlainBps(bps, next) && k < |bps|
    ensures PlainBps(bps[..k] + bps[k + 1..], next)
    ensures AllEnabled(bps) ==> AllEnabled(bps[..k] + bps[k + 1..])
  {
    var rest := bps[..k] + bps[k + 1..];
    assert forall i :: 0 <= i < |rest| ==> rest[i] == bps[if i < k then i else i + 1];
  }

  lemma DeleteBpGood(s: State, id: int)
    requires Good(s)
    ensures Good(DeleteById(s, id))
  {
    DeleteByIdEffect(s, id);
    var k := First(s.bps, WithId(id));
    if k < |s.bps| { RemovalStaysPlain(s.bps, k, s.nextBp); }
  }

  lemma DeleteAllGood(s: State)
    requires Good(s)
    ensures Good(DeleteFrom(s, Every, 0))
  {
    DeleteFromEffect(s, Every, 0);
    DeleteFromSpares(s, Every, 0);
    NoneSpared(s.bps[0..]);
  }

  lemma StepGood(s: State, pc: nat)
    requires Good(s)
    ensures Good(Prepare(s, 0, false, pc))
  {
    SetStatesEffect(s, NonSteppings, true, 0);
    SameStayPlain(s.bps, SetStates(s, NonSteppings, true, 0).bps, s.nextBp);
  }

  lemma NextGood<M>(cpu: Cpu<M>, r: Run<M>, e: Event)
    requires Good(r.s) && Allowed(e)
    ensures Good(Next(cpu, r, e).s)
  {
    var s := r.s;
    match e
    case Tick(ti) => TickGood(cpu, r);
    case SetBp(loc, thread) => SetBpGood(s, loc);
    case DeleteBp(id) => DeleteBpGood(s, id);
    case DeleteAllBps => DeleteAllGood(s);
    case Continue => NoSteppings(s, 0);
    case Step(over, pc) => StepGood(s, pc);
  }

  /** The re-arm invariant holds in every reachable state. */
  lemma {:induction false} RearmInvariant<M>(cpu: Cpu<M>, r: Run<M>, es: seq<Event>)
    requires Good(r.s) && forall i :: 0 <= i < |es| ==> Allowed(es[i])
    ensures Good(RunAll(cpu, r, es).s)
    decreases |es|
  {
    if es != [] {
      RearmInvariant(cpu, r, es[..|es| - 1]);
      NextGood(cpu, RunAll(cpu, r, es[..|es| - 1]), es[|es| - 1]);
    }
  }

  // ----- progress

  /** Stopped at `pc` after a breakpoint there, ready to be stepped past it. */
  ghost predicate Parked<M>(cpu: Cpu<M>, orig: Code, r: Run<M>, pc: nat) {
    && Inv(r.s, orig) && Good(r.s) && !r.running && cpu.pc(r.m, 0) == pc
    && r.s.threads[0].regs.step && r.s.threads[0].fl.justHitBp && !r.s.threads[0].fl.isStepping
    && Fetch(r.s.code, pc) == Fetch(orig, pc)
  }

  /** The breakpoint the handler finds at `pc` is a software one. */
  predicate SoftFirst(s: State, pc: nat) {
    First(s.bps, NormalAt(pc)) < |s.bps| && !s.bps[First(s.bps, NormalAt(pc))].hw
  }

  /** A running thread about to trap on a listed breakpoint. */
  ghost predicate AtBreakpoint<M>(cpu: Cpu<M>, orig: Code, r: Run<M>) {
    var pc := cpu.pc(r.m, 0);
    && Inv(r.s, orig) && Good(r.s) && r.running
    && !r.s.threads[0].regs.step && !r.s.threads[0].fl.isStepping
    && pc != 0 && First(r.s.bps, NormalAt(pc)) < |r.s.bps|
    && (Fetch(r.s.code, pc) == BRK || HwMatch(r.s.threads[0], pc))
  }

  /** What a trap of the thread comes to. */
  lemma TrapDelivers<M>(cpu: Cpu<M>, r: Run<M>)
    requires Plain(r.s) && r.running && cpu.pc(r.m, 0) != 0
    requires Fetch(r.s.code, cpu.pc(r.m, 0)) == BRK || (!r.s.threads[0].regs.step && HwMatch(r.s.threads[0], cpu.pc(r.m, 0)))
    ensures var o := BreakStop(r.s, 0, cpu.pc(r.m, 0)); Next(cpu, r, Tick(0)) == r.(s := o.s, running := o.resume)
  {
    hide BreakStop, HwMatch, PlainBps;
    assert FocusOn(r.s, r.s.threads[0].port) == r.s;
  }

  lemma BreakStopParks(s: State, addr: nat, orig: Code)
    requires Plain(s) && Inv(s, orig) && First(s.bps, NormalAt(addr)) < |s.bps|
    ensures var o := BreakStop(s, 0, addr);
      && !o.resume && o.s.threads[0].fl.isStepping == s.threads[0].fl.isStepping
      && Fetch(o.s.code, addr) == if SoftFirst(s, addr) then Fetch(orig, addr) else Fetch(s.code, addr)
  {
    BreakStopEffect(s, addr);
    hide BreakStop, PlainBps;
    var k := First(s.bps, NormalAt(addr));
    assert s.bps[k].orig == Fetch(orig, addr);
    hide Inv;
  }

  /** The stop uncovers the original word, unless a hardware breakpoint listed first hides the
      software breakpoint that wrote the BRK. */
  lemma HitParksIff<M>(cpu: Cpu<M>, orig: Code, r: Run<M>)
    requires AtBreakpoint(cpu, orig, r)
    ensures var pc := cpu.pc(r.m, 0);
            Parked(cpu, orig, Next(cpu, r, Tick(0)), pc) <==> SoftFirst(r.s, pc) || Fetch(r.s.code, pc) == Fetch(orig, pc)
  {
    hide Inv, BreakStop, First, PlainBps, AllEnabled, Next, HwMatch;
    var pc := cpu.pc(r.m, 0);
    BreakStopKeeps(r.s, 0, pc, orig);
    BreakStopGood(r.s, pc);
    BreakStopParks(r.s, pc, orig);
    TrapDelivers(cpu, r);
  }

  lemma SetElsewhere(s: State, orig: Code, pc: nat, loc: nat)
    requires Inv(s, orig) && Good(s) && Fetch(s.code, pc) == Fetch(orig, pc) && loc != pc
    ensures var s' := AddBp(s, loc, false, false, ALL_THREADS);
            && Inv(s', orig) && Good(s') && Fetch(s'.code, pc) == Fetch(orig, pc)
            && s'.threads[0].regs.step == s.threads[0].regs.step && s'.threads[0].fl == s.threads[0].fl
  {
    AddBpKeeps(s, loc, false, false, ALL_THREADS, orig);
    SetBpGood(s, loc);
  }

  lemma DeleteAnywhere(s: State, orig: Code, pc: nat, id: int)
    requires Inv(s, orig) && Good(s) && Fetch(s.code, pc) == Fetch(orig, pc)
    ensures var s' := DeleteById(s, id);
            && Inv(s', orig) && Good(s') && Fetch(s'.code, pc) == Fetch(orig, pc)
            && s'.threads[0].regs.step == s.threads[0].regs.step && s'.threads[0].fl == s.threads[0].fl
  {
    DeleteByIdKeeps(s, id, orig);
    DeleteBpGood(s, id);
    DeleteByIdEffect(s, id);
    var k := First(s.bps, WithId(id));
    if k < |s.bps| { DisableKeepsWord(s, orig, pc, k); }
  }

  lemma DeleteEverything(s: State, orig: Code)
    requires Inv(s, orig) && Good(s)
    ensures var s' := DeleteFrom(s, Every, 0);
            && Inv(s', orig) && Good(s') && s'.code == orig
            && s'.threads[0].regs.step == s.threads[0].regs.step && s'.threads[0].fl == s.threads[0].fl
  {
    DeleteFromKeeps(s, Every, 0, orig);
    DeleteAllRestores(s, orig);
    DeleteAllGood(s);
    DeleteFromEffect(s, Every, 0);
    hide Inv, DeleteFrom, Good;
  }

  /** Setting breakpoints elsewhere and deleting any or all leaves the thread parked. */
  lemma InterludeKeeps<M>(cpu: Cpu<M>, orig: Code, r: Run<M>, pc: nat, e: Event)
    requires Parked(cpu, orig, r, pc) && Between(e, pc)
    ensures Parked(cpu, orig, Next(cpu, r, e), pc)
  {
    match e
    case SetBp(loc, thread) => SetElsewhere(r.s, orig, pc, loc);
    case DeleteBp(id) => DeleteAnywhere(r.s, orig, pc, id);
    case DeleteAllBps => DeleteEverything(r.s, orig);
  }

  /** What the user may do between a hit at `pc` and going on. */
  predicate Between(e: Event, pc: nat) {
    e.DeleteBp? || e.DeleteAllBps? || (e.SetBp? && e.loc != pc && e.thread == ALL_THREADS)
  }

  predicate Interlude(es: seq<Event>, pc: nat) {
    forall i :: 0 <= i < |es| ==> Between(es[i], pc)
  }

  lemma {:induction false} InterludesKeep<M>(cpu: Cpu<M>, orig: Code, r: Run<M>, pc: nat, es: seq<Event>)
    requires Parked(cpu, orig, r, pc) && Interlude(es, pc)
    ensures Parked(cpu, orig, RunAll(cpu, r, es), pc) && RunAll(cpu, r, es).trace == r.trace
    decreases |es|
  {
    if es != [] {
      InterludesKeep(cpu, orig, r, pc, es[..|es| - 1]);
      InterludeKeeps(cpu, orig, RunAll(cpu, r, es[..|es| - 1]), pc, es[|es| - 1]);
    }
  }

  lemma ContinueIs<M>(cpu: Cpu<M>, r: Run<M>)
    requires !r.running
    ensures Next(cpu, r, Continue) == r.(s := DeleteFrom(r.s, Steppings, 0), running := true)
  {
    hide DeleteFrom;
  }

  /** A pending step: one instruction, then the handler. */
  lemma SteppedTick<M>(cpu: Cpu<M>, r: Run<M>)
    requires r.running && |r.s.threads| == 1 && r.s.threads[0].focused && !r.s.threads[0].fl.justHitWp
    requires r.s.threads[0].regs.step && Fetch(r.s.code, cpu.pc(r.m, 0)) != BRK
    ensures var pc := cpu.pc(r.m, 0);
      var word := Fetch(r.s.code, pc);
      var r2 := Run(WithStep(r.s, 0, false), cpu.exec(r.m, 0, word), true, r.trace + [Insn(0, pc, word)]);
      var o := StepStop(r2.s, 0, cpu.pc(r2.m, 0));
      Next(cpu, r, Tick(0)) == r2.(s := o.s, running := o.resume)
  {
    hide StepStop, HwMatch;
    assert FocusOn(WithStep(r.s, 0, false), r.s.threads[0].port) == WithStep(r.s, 0, false);
  }

  /** From a parked stop, `continue` executes exactly the original instruction at `pc`; afterwards
      every breakpoint is enabled and the thread runs on. */
  lemma ParkedGoesOn<M>(cpu: Cpu<M>, orig: Code, r: Run<M>, pc: nat)
    requires Parked(cpu, orig, r, pc) && Fetch(orig, pc) != BRK
    ensures var r' := Next(cpu, Next(cpu, r, Continue), Tick(0));
            && r'.trace == r.trace + [Insn(0, pc, Fetch(orig, pc))]
            && r'.m == cpu.exec(r.m, 0, Fetch(orig, pc))
            && AllEnabled(r'.s.bps) && !r'.s.threads[0].regs.step && r'.running
  {
    hide Inv, First, StepStop, AllEnabled, HwMatch, Find, Next, DeleteFrom;
    NoSteppings(r.s, 0);
    ContinueIs(cpu, r);
    var word := Fetch(orig, pc);
    SteppedTick(cpu, r.(running := true));
    var r2 := Run(WithStep(r.s, 0, false), cpu.exec(r.m, 0, word), true, r.trace + [Insn(0, pc, word)]);
    StepStopEnables(r2.s, cpu.pc(r2.m, 0));
  }

  lemma DisableKeepsWord(s: State, orig: Code, pc: nat, k: nat)
    requires Inv(s, orig) && Fetch(s.code, pc) == Fetch(orig, pc) && k < |s.bps|
    ensures Fetch(SetState(s, k, true).code, pc) == Fetch(orig, pc)
  {
    assert s.bps[k].orig == Fetch(orig, s.bps[k].location);
  }

  /** After a hit, whatever is set elsewhere or deleted meanwhile, `continue` executes exactly one
      native instruction before another stop is possible. */
  lemma HitThenContinue<M>(cpu: Cpu<M>, orig: Code, r: Run<M>, es: seq<Event>)
    requires AtBreakpoint(cpu, orig, r) && Fetch(orig, cpu.pc(r.m, 0)) != BRK
    requires SoftFirst(r.s, cpu.pc(r.m, 0)) || Fetch(r.s.code, cpu.pc(r.m, 0)) == Fetch(orig, cpu.pc(r.m, 0))
    requires Interlude(es, cpu.pc(r.m, 0))
    ensures var pc := cpu.pc(r.m, 0);
            var stopped := RunAll(cpu, Next(cpu, r, Tick(0)), es);
            var on := Next(cpu, Next(cpu, stopped, Continue), Tick(0));
            && !stopped.running && stopped.trace == r.trace
            && on.running && on.trace == r.trace + [Insn(0, pc, Fetch(orig, pc))] && AllEnabled(on.s.bps)
  {
    var pc := cpu.pc(r.m, 0);
    HitParksIff(cpu, orig, r);
    DeliverKeeps(cpu, r, r.s.threads[0].port, Break(pc), orig);
    InterludesKeep(cpu, orig, Next(cpu, r, Tick(0)), pc, es);
    ParkedGoesOn(cpu, orig, RunAll(cpu, Next(cpu, r, Tick(0)), es), pc);
  }

  /** A trap on a BRK that belongs to a listed breakpoint stops the debuggee with nothing executed. */
  lemma TrapStops<M>(cpu: Cpu<M>, r: Run<M>)
    requires Good(r.s) && r.running && cpu.pc(r.m, 0) != 0
    requires First(r.s.bps, NormalAt(cpu.pc(r.m, 0))) < |r.s.bps| && Fetch(r.s.code, cpu.pc(r.m, 0)) == BRK
    ensures var r' := Next(cpu, r, Tick(0));
            var k := First(r.s.bps, NormalAt(cpu.pc(r.m, 0)));
            && Good(r'.s) && !r'.running && r'.trace == r.trace && r'.m == r.m
            && (r.s.bps[k].hw ==> r'.s.code == r.s.code && r'.s.bps == r.s.bps[k := r.s.bps[k].(hits := r.s.bps[k].hits + 1)])
  {
    BreakStopGood(r.s, cpu.pc(r.m, 0));
    hide BreakStop, Next, PlainBps, AllEnabled, First, HwMatch;
    BreakStopEffect(r.s, cpu.pc(r.m, 0));
    TrapDelivers(cpu, r);
  }

  /** Otherwise the thread is stuck: it traps again at once, with nothing executed. */
  lemma HiddenBrkIsStuck<M>(cpu: Cpu<M>, orig: Code, r: Run<M>)
    requires AtBreakpoint(cpu, orig, r)
    requires !SoftFirst(r.s, cpu.pc(r.m, 0)) && Fetch(r.s.code, cpu.pc(r.m, 0)) == BRK
    ensures var r' := Next(cpu, Next(cpu, Next(cpu, r, Tick(0)), Continue), Tick(0));
            !r'.running && r'.trace == r.trace && r'.m == r.m && Fetch(r'.s.code, cpu.pc(r.m, 0)) == BRK
  {
    hide Turn, Inv, HwMatch;
    var pc := cpu.pc(r.m, 0);
    TrapStops(cpu, r);
    var r1 := Next(cpu, r, Tick(0));
    var k := First(r.s.bps, NormalAt(pc));
    assert r1.s.bps[k].hw && r1.s.bps[k].Normal() && r1.s.bps[k].location == pc;
    NoSteppings(r1.s, 0);
    assert Next(cpu, r1, Continue) == r1.(running := true);
    hide DeleteFrom, PlainBps, AllEnabled, Next;
    TrapStops(cpu, r1.(running := true));
  }
}
