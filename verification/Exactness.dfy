/** "BRK exactly where an enabled software breakpoint is": kept by every run whose breakpoints are
    set at distinct addresses, so that no breakpoint is missed. */
module Exactness {
  import opened Engine
  import opened EngineInvariants
  import opened Stops
  import opened Transparency

  /** No two software breakpoints share an address. */
  predicate Apart(bps: seq<Bp>) {
    forall i, j :: 0 <= i < j < |bps| && !bps[i].hw && !bps[j].hw ==> bps[i].location != bps[j].location
  }

  /** Each breakpoint keeps the original word, and a hardware one its control word and aligned address. */
  predicate Remembers(bps: seq<Bp>, orig: Code) {
    && (forall k :: 0 <= k < |bps| ==> bps[k].orig == Fetch(orig, bps[k].location))
    && (forall k :: 0 <= k < |bps| && bps[k].hw ==> bps[k].slot == Slot(BREAK_CONTROL, bps[k].location - bps[k].location % 4))
  }

  ghost predicate ExactOn(bps: seq<Bp>, code: Code, orig: Code) {
    && Apart(bps) && Remembers(bps, orig) && code.Keys == orig.Keys
    && forall a :: a in code ==> code[a] == if EnabledAt(bps, a) then BRK else orig[a]
  }

  ghost predicate Exact(s: State, orig: Code) {
    ExactOn(s.bps, s.code, orig)
  }

  /** No listed software breakpoint is at `loc`. */
  predicate FreeLoc(bps: seq<Bp>, loc: nat) {
    forall k :: 0 <= k < |bps| && !bps[k].hw ==> bps[k].location != loc
  }

  // ----- the primitive operations

  /** Enabling or disabling one breakpoint decides its own address and no other. */
  lemma EnabledAfter(bps: seq<Bp>, k: nat, disabled: bool, a: nat)
    requires Apart(bps) && k < |bps|
    ensures EnabledAt(bps[k := bps[k].(disabled := disabled)], a) ==
      if !bps[k].hw && bps[k].location == a then !disabled else EnabledAt(bps, a)
  {
    var bps' := bps[k := bps[k].(disabled := disabled)];
    if EnabledAt(bps, a) {
      var j :| 0 <= j < |bps| && !bps[j].hw && !bps[j].disabled && bps[j].location == a;
      assert bps'[j].location == a && (j != k ==> bps'[j] == bps[j]);
    }
    if EnabledAt(bps', a) {
      var j :| 0 <= j < |bps'| && !bps'[j].hw && !bps'[j].disabled && bps'[j].location == a;
      assert j != k ==> bps'[j] == bps[j];
    }
    assert bps'[k].location == bps[k].location;
  }

  lemma SetStateExact(s: State, k: nat, disabled: bool, orig: Code)
    requires Exact(s, orig) && k < |s.bps|
    ensures Exact(SetState(s, k, disabled), orig)
  {
    var s' := SetState(s, k, disabled);
    var b := s.bps[k];
    assert s'.code == if b.hw then s.code else Store(s.code, b.location, if disabled then b.orig else BRK);
    forall a | a in s'.code ensures s'.code[a] == if EnabledAt(s'.bps, a) then BRK else orig[a] {
      EnabledAfter(s.bps, k, disabled, a);
    }
  }

  lemma EnabledWithout(bps: seq<Bp>, k: nat, a: nat)
    requires k < |bps| && (bps[k].hw || bps[k].disabled)
    ensures EnabledAt(RemoveAt(bps, k), a) == EnabledAt(bps, a)
  {
    var rest := RemoveAt(bps, k);
    assert forall j :: 0 <= j < |rest| ==> rest[j] == bps[if j < k then j else j + 1];
    if EnabledAt(bps, a) {
      var j :| 0 <= j < |bps| && !bps[j].hw && !bps[j].disabled && bps[j].location == a;
      assert rest[if j < k then j else j - 1] == bps[j];
    }
  }

  lemma DeleteAtExact(s: State, k: nat, orig: Code)
    requires Exact(s, orig) && k < |s.bps|
    ensures Exact(DeleteAt(s, k), orig)
  {
    SetStateExact(s, k, true, orig);
    var s1 := SetState(s, k, true);
    var s' := DeleteAt(s, k);
    assert forall j :: 0 <= j < |s'.bps| ==> s'.bps[j] == s1.bps[if j < k then j else j + 1];
    forall a | a in s'.code ensures s'.code[a] == if EnabledAt(s'.bps, a) then BRK else orig[a] {
      EnabledWithout(s1.bps, k, a);
    }
  }

  lemma EnabledWith(bps: seq<Bp>, b: Bp, a: nat)
    ensures EnabledAt(bps + [b], a) == (EnabledAt(bps, a) || (!b.hw && !b.disabled && b.location == a))
  {
    var bps' := bps + [b];
    if EnabledAt(bps, a) {
      var j :| 0 <= j < |bps| && !bps[j].hw && !bps[j].disabled && bps[j].location == a;
      assert bps'[j] == bps[j];
    }
    assert bps'[|bps|] == b;
    if EnabledAt(bps', a) {
      var j :| 0 <= j < |bps'| && !bps'[j].hw && !bps'[j].disabled && bps'[j].location == a;
      assert j < |bps| ==> bps'[j] == bps[j];
    }
  }

  lemma AddBpExact(s: State, loc: nat, temporary: bool, stepping: bool, thread: int, orig: Code)
    requires Exact(s, orig) && FreeLoc(s.bps, loc)
    ensures Exact(AddBp(s, loc, temporary, stepping, thread), orig)
  {
    if KnownThread(s.threads, thread) {
      hide FreeReg, Find, BpRegs, ArmAll, Store, Apart;
      var b := MakeBp(s, loc, temporary, stepping, thread);
      var s' := AddBp(s, loc, temporary, stepping, thread);
      assert b.orig == Fetch(orig, loc) by { NoneEnabled(s.bps, loc); }
      assert s'.bps == s.bps + [b] && b.location == loc && !b.disabled;
      assert b.hw ==> b.slot == Slot(BREAK_CONTROL, loc - loc % 4);
      assert s'.code == if b.hw then s.code else Store(s.code, loc, BRK);
      hide MakeBp, First, AddBp;
      ExactWith(s.bps, s.code, b, orig);
    }
  }

  lemma NoneEnabled(bps: seq<Bp>, loc: nat)
    requires FreeLoc(bps, loc)
    ensures !EnabledAt(bps, loc)
  {
  }

  /** A new breakpoint at a free address. */
  lemma ExactWith(bps: seq<Bp>, code: Code, b: Bp, orig: Code)
    requires ExactOn(bps, code, orig) && FreeLoc(bps, b.location) && !b.disabled && b.orig == Fetch(orig, b.location)
    requires b.hw ==> b.slot == Slot(BREAK_CONTROL, b.location - b.location % 4)
    ensures ExactOn(bps + [b], if b.hw then code else Store(code, b.location, BRK), orig)
  {
    var code', bps' := if b.hw then code else Store(code, b.location, BRK), bps + [b];
    NoneEnabled(bps, b.location);
    assert forall k :: 0 <= k < |bps'| ==> bps'[k] == if k < |bps| then bps[k] else b;
    hide EnabledAt;
    forall a | a in code' ensures code'[a] == if EnabledAt(bps', a) then BRK else orig[a] {
      EnabledWith(bps, b, a);
    }
  }

  lemma CountHit(bps: seq<Bp>, k: nat, a: nat)
    requires k < |bps|
    ensures EnabledAt(bps[k := bps[k].(hits := bps[k].hits + 1)], a) == EnabledAt(bps, a)
  {
    var bps' := bps[k := bps[k].(hits := bps[k].hits + 1)];
    if EnabledAt(bps, a) {
      var j :| 0 <= j < |bps| && !bps[j].hw && !bps[j].disabled && bps[j].location == a;
      assert !bps'[j].hw && !bps'[j].disabled && bps'[j].location == a;
    }
    if EnabledAt(bps', a) {
      var j :| 0 <= j < |bps'| && !bps'[j].hw && !bps'[j].disabled && bps'[j].location == a;
      assert !bps[j].hw && !bps[j].disabled && bps[j].location == a;
    }
  }

  lemma HitAtExact(s: State, k: nat, orig: Code)
    requires Exact(s, orig) && k < |s.bps|
    ensures Exact(HitAt(s, k), orig)
  {
    if s.bps[k].temporary { DeleteAtExact(s, k, orig); }
    else {
      forall a | a in s.code ensures s.code[a] == if EnabledAt(HitAt(s, k).bps, a) then BRK else orig[a] {
        CountHit(s.bps, k, a);
      }
    }
  }

  // ----- the loops and searches

  lemma {:induction false} SetStatesExact(s: State, c: Choice, disabled: bool, k: nat, orig: Code)
    requires Exact(s, orig) && k <= |s.bps|
    ensures Exact(SetStates(s, c, disabled, k), orig)
    decreases |s.bps| - k
  {
    hide ExactOn, SetState;
    if k < |s.bps| {
      if Chosen(c, s.bps[k]) { SetStateExact(s, k, disabled, orig); }
      SetStatesExact(SetChosen(s, c, disabled, k), c, disabled, k + 1, orig);
    }
  }

  lemma {:induction false} DeleteFromExact(s: State, c: Choice, k: nat, orig: Code)
    requires Exact(s, orig) && k <= |s.bps|
    ensures Exact(DeleteFrom(s, c, k), orig)
    decreases |s.bps| - k
  {
    hide ExactOn, DeleteAt;
    if k < |s.bps| {
      if Chosen(c, s.bps[k]) {
        DeleteAtExact(s, k, orig);
        DeleteFromExact(DeleteAt(s, k), c, k, orig);
      } else {
        DeleteFromExact(s, c, k + 1, orig);
      }
    }
  }

  lemma SetStateByIdExact(s: State, id: int, disabled: bool, orig: Code)
    requires Exact(s, orig)
    ensures Exact(SetStateById(s, id, disabled), orig)
  {
    hide ExactOn, SetState;
    var k := First(s.bps, WithId(id));
    if k < |s.bps| { SetStateExact(s, k, disabled, orig); }
  }

  lemma DeleteByIdExact(s: State, id: int, orig: Code)
    requires Exact(s, orig)
    ensures Exact(DeleteById(s, id), orig)
  {
    hide ExactOn, DeleteAt;
    var k := First(s.bps, WithId(id));
    if k < |s.bps| { DeleteAtExact(s, k, orig); }
  }

  // ----- stops and steps

  lemma NormalHitExact(s: State, ti: nat, k: nat, orig: Code)
    requires Exact(s, orig) && ti < |s.threads| && k < |s.bps| && s.bps[k].Normal()
    ensures Exact(NormalHit(s, ti, k), orig)
  {
    hide ExactOn, HitAt, SetStateById;
    HitAtExact(s, k, orig);
    var s1 := HitAt(s, k);
    if !s.bps[k].hw { SetStateByIdExact(WithFlags(s1, ti, s1.threads[ti].fl.(justHitSw := true)), s.bps[k].id, true, orig); }
  }

  lemma HandleHitExact(s: State, ti: nat, addr: nat, orig: Code)
    requires Exact(s, orig) && ti < |s.threads|
    ensures Exact(HandleHit(s, ti, addr).s, orig)
  {
    hide ExactOn, HitAt, NormalHit;
    var step := First(s.bps, SteppingAt(addr));
    var s1 := if step == |s.bps| then s else SteppingHit(s, ti, step);
    if step < |s.bps| { HitAtExact(s, step, orig); }
    var k := First(s1.bps, NormalAt(addr));
    if k < |s1.bps| { NormalHitExact(s1, ti, k, orig); }
  }

  lemma HandleSingleStepExact(s: State, ti: nat, orig: Code)
    requires Exact(s, orig) && ti < |s.threads|
    ensures Exact(HandleSingleStep(s, ti).s, orig)
  {
    hide ExactOn, SetStates, SetStateById;
    SetStatesExact(s, Normals, false, 0, orig);
    var s1 := SetStates(s, Normals, false, 0);
    SetStateByIdExact(s1, s1.threads[ti].fl.lastBpId, false, orig);
  }

  lemma HandleExact(s: State, ti: nat, exc: Exc, pc: nat, orig: Code)
    requires Exact(s, orig) && ti < |s.threads|
    ensures Exact(Handle(s, ti, exc, pc).s, orig)
  {
    hide ExactOn, HandleHit, HandleSingleStep, HitAt, First;
    match exc
    case Signal(_) =>
    case Other =>
    case WatchHit(_) =>
    case Break(subcode) =>
      if subcode != 0 {
        HandleHitExact(WithFlags(s, ti, s.threads[ti].fl.(justHitBp := true)), ti, subcode, orig);
      } else if !s.threads[ti].fl.justHitWp {
        var k := First(s.bps, NormalAt(pc));
        var hit := s.threads[ti].fl.isStepping && k < |s.bps|;
        if hit { HitAtExact(s, k, orig); }
        HandleSingleStepExact(if hit then HitAt(s, k) else s, ti, orig);
      }
  }

  /** An instruction step sets its temporary breakpoint behind the call. */
  lemma PrepareExact(s: State, ti: nat, over: bool, pc: nat, orig: Code)
    requires Exact(s, orig) && ti < |s.threads| && (over ==> FreeLoc(s.bps, pc + 4))
    ensures Exact(Prepare(s, ti, over, pc), orig)
  {
    hide ExactOn, SetStates, AddBp, AtCall;
    SetStatesExact(s, NonSteppings, true, 0, orig);
    var s1 := SetStates(s, NonSteppings, true, 0);
    SetStatesLocations(s, NonSteppings, true, 0);
    if over {
      var fl := s1.threads[ti].fl.(stepKind := StepOver);
      AddBpExact(WithFlags(s1, ti, fl), pc + 4, true, true, s1.threads[ti].id, orig);
    }
  }

  lemma {:induction false} SetStatesLocations(s: State, c: Choice, disabled: bool, k: nat)
    requires k <= |s.bps|
    ensures forall i :: 0 <= i < |s.bps| ==> SetStates(s, c, disabled, k).bps[i].location == s.bps[i].location && SetStates(s, c, disabled, k).bps[i].hw == s.bps[i].hw
    decreases |s.bps| - k
  {
    if k < |s.bps| { SetStatesLocations(SetChosen(s, c, disabled, k), c, disabled, k + 1); }
  }

  // ----- runs

  /** Whatever the event sets a breakpoint at is free. */
  predicate SetsFree(s: State, e: Event) {
    match e
    case SetBp(loc, _) => FreeLoc(s.bps, loc)
    case Step(over, pc) => over ==> FreeLoc(s.bps, pc + 4)
    case _ => true
  }

  predicate AllSetFree<M>(cpu: Cpu<M>, r: Run<M>, es: seq<Event>) {
    forall i :: 0 <= i < |es| ==> SetsFree(RunAll(cpu, r, es[..i]).s, es[i])
  }

  lemma DeliverExact<M>(cpu: Cpu<M>, r: Run<M>, port: nat, exc: Exc, orig: Code)
    requires Exact(r.s, orig)
    ensures Exact(Deliver(cpu, r, port, exc).s, orig)
  {
    hide ExactOn, Handle, SetFocus;
    var s1 := FocusOn(r.s, port);
    var f := FirstFocused(s1.threads);
    if f < |s1.threads| { HandleExact(s1, f, exc, cpu.pc(r.m, f), orig); }
  }

  lemma NextExact<M>(cpu: Cpu<M>, r: Run<M>, e: Event, orig: Code)
    requires Exact(r.s, orig) && SetsFree(r.s, e)
    ensures Exact(Next(cpu, r, e).s, orig)
  {
    hide ExactOn, Deliver, AddBp, DeleteFrom, DeleteById, Prepare, AddWp, DeleteWpById, SetFocus;
    match e
    case Tick(ti) => if r.running && ti < |r.s.threads| { TurnExact(cpu, r, ti, orig); }
    case Raise(port, exc) => DeliverExact(cpu, r, port, exc, orig);
    case SetBp(loc, thread) => AddBpExact(r.s, loc, false, false, thread, orig);
    case DeleteBp(id) => DeleteByIdExact(r.s, id, orig);
    case DeleteAllBps => DeleteFromExact(r.s, Every, 0, orig);
    case SetWp(loc, len, lsc, thread, readable) => WatchesLeaveCode(r.s, loc, len, lsc, thread, readable, 0);
    case DeleteWp(id) => WatchesLeaveCode(r.s, 0, 0, 0, 0, true, id);
    case Continue => DeleteFromExact(r.s, Steppings, 0, orig);
    case Step(over, pc) =>
      var f := FirstFocused(r.s.threads);
      if f < |r.s.threads| { PrepareExact(r.s, f, over, pc, orig); }
    case _ =>
  }

  lemma WatchesLeaveCode(s: State, loc: nat, len: nat, lsc: nat, thread: int, readable: bool, id: int)
    ensures AddWp(s, loc, len, lsc, thread, readable).bps == s.bps && AddWp(s, loc, len, lsc, thread, readable).code == s.code
    ensures DeleteWpById(s, id).bps == s.bps && DeleteWpById(s, id).code == s.code
  {
  }

  lemma TurnExact<M>(cpu: Cpu<M>, r: Run<M>, ti: nat, orig: Code)
    requires Exact(r.s, orig) && ti < |r.s.threads|
    ensures Exact(Turn(cpu, r, ti).s, orig)
  {
    hide ExactOn, Deliver;
    var pc := cpu.pc(r.m, ti);
    var word := Fetch(r.s.code, pc);
    var t := r.s.threads[ti];
    DeliverExact(cpu, r, t.port, Break(pc), orig);
    var r1 := Run(WithStep(r.s, ti, false), cpu.exec(r.m, ti, word), r.running, r.trace + [Insn(ti, pc, word)]);
    DeliverExact(cpu, r1, t.port, Break(0), orig);
  }

  /** In every run whose breakpoints are set at free addresses, each code word is BRK exactly if an
      enabled software breakpoint is there, and the original word otherwise. */
  lemma {:induction false} RunsStayExact<M>(cpu: Cpu<M>, orig: Code, r: Run<M>, es: seq<Event>)
    requires Exact(r.s, orig) && AllSetFree(cpu, r, es)
    ensures Exact(RunAll(cpu, r, es).s, orig)
    decreases |es|
  {
    hide ExactOn, Next, SetsFree;
    if es != [] {
      var n := |es| - 1;
      forall i | 0 <= i < n ensures SetsFree(RunAll(cpu, r, es[..n][..i]).s, es[..n][i]) {
        assert es[..n][..i] == es[..i];
      }
      RunsStayExact(cpu, orig, r, es[..n]);
      NextExact(cpu, RunAll(cpu, r, es[..n]), es[n], orig);
    }
  }

  // ----- no breakpoint is missed

  /** An enabled breakpoint on thread `t` at `pc`: a software one, or an aligned hardware one meant
      for the thread, which is not heeded while the thread single-steps. */
  predicate Guards(b: Bp, t: Thread, pc: nat) {
    !b.disabled && b.location == pc && (!b.hw || (Targets(b.target, t) && !t.regs.step && pc % 4 == 0))
  }

  /** A thread never executes the instruction at an enabled breakpoint: its turn traps instead. */
  lemma NeverMissed<M>(cpu: Cpu<M>, orig: Code, r: Run<M>, ti: nat, k: nat)
    requires Inv(r.s, orig) && Exact(r.s, orig) && ti < |r.s.threads| && k < |r.s.bps|
    requires Guards(r.s.bps[k], r.s.threads[ti], cpu.pc(r.m, ti)) && cpu.pc(r.m, ti) in r.s.code
    ensures Turn(cpu, r, ti).trace == r.trace && Turn(cpu, r, ti).m == r.m
  {
    var b := r.s.bps[k];
    var t := r.s.threads[ti];
    var pc := cpu.pc(r.m, ti);
    if b.hw {
      SlotArmed(r.s, orig, ti, k);
      assert t.regs.breaks[b.reg].ctl & 1 == 1 && t.regs.breaks[b.reg].val == pc;
    } else {
      assert EnabledAt(r.s.bps, pc);
    }
    DeliverKeeps(cpu, r, t.port, Break(pc), orig);
  }

  lemma SlotArmed(s: State, orig: Code, ti: nat, k: nat)
    requires Inv(s, orig) && ti < |s.threads| && k < |s.bps|
    requires s.bps[k].hw && !s.bps[k].disabled && Targets(s.bps[k].target, s.threads[ti])
    ensures 0 <= s.bps[k].reg < NUM_SLOTS && s.threads[ti].regs.breaks[s.bps[k].reg] == s.bps[k].slot
  {
    var pts := BpPoints(s.bps);
    var r := s.bps[k].reg;
    assert SlotOk(pts, s.threads[ti], r, s.threads[ti].regs.Get(Breaks)[r]);
    assert Keeps(pts[k], s.threads[ti], r);
  }

  /** At no point of such a run can any thread's turn execute an instruction that an enabled
      breakpoint guards. */
  lemma RunsMissNothing<M>(cpu: Cpu<M>, orig: Code, r: Run<M>, es: seq<Event>, ti: nat, k: nat)
    requires Inv(r.s, orig) && r.trace == [] && Exact(r.s, orig) && AllSetFree(cpu, r, es)
    ensures var now := RunAll(cpu, r, es);
      ti < |now.s.threads| && k < |now.s.bps| && Guards(now.s.bps[k], now.s.threads[ti], cpu.pc(now.m, ti)) && cpu.pc(now.m, ti) in orig
      ==> Turn(cpu, now, ti).trace == now.trace && Turn(cpu, now, ti).m == now.m
  {
    hide RunAll, Turn, ExactOn;
    var now := RunAll(cpu, r, es);
    Transparent(cpu, orig, r, es);
    RunsStayExact(cpu, orig, r, es);
    if ti < |now.s.threads| && k < |now.s.bps| && Guards(now.s.bps[k], now.s.threads[ti], cpu.pc(now.m, ti)) && cpu.pc(now.m, ti) in orig {
      NeverMissed(cpu, orig, now, ti, k);
    }
  }
}
