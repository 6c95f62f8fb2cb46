/** The exception handler and the step command in place, on a `Debuggee`. */
module StopHandling {
  import opened Engine
  import opened Stops
  import opened DebuggeeObjects
  import Branch

  /** The part of handle_hit_breakpoint after the thread test. */
  method HandleNormalHit(d: Debuggee, t: MachThread, hit: Breakpoint, ghost ti: nat, ghost k: nat)
    requires d.Valid() && ti < |d.threads| && d.threads[ti] == t
    requires k < |d.breakpoints| && d.breakpoints[k] == hit && !hit.temporary && !hit.stepping
    modifies d, d.threads, d.breakpoints
    ensures d.Valid() && d.watchpoints == old(d.watchpoints) && d.threads == old(d.threads)
    ensures d.model == NormalHit(old(d.model), ti, k)
  {
    hide Debuggee.Valid, HitAt, SetStateById;
    d.BpAt(k);
    d.HitBp(hit, k);
    if !hit.hw {
      d.ThreadAt(ti);
      d.SetFlags(t, t.fl.(justHitSw := true), ti);
      var _ := d.SetBpStateById(hit.id, true);
    }
    d.ThreadAt(ti);
    d.SetFlags(t, t.fl.(lastBpId := hit.id), ti);
  }

  /** A hit stepping breakpoint is deleted and noted. */
  method HandleSteppingHit(d: Debuggee, t: MachThread, step: Breakpoint, ghost k: nat, ghost ti: nat)
    requires d.Valid() && ti < |d.threads| && d.threads[ti] == t
    requires k < |d.breakpoints| && d.breakpoints[k] == step
    modifies d, d.threads, step
    ensures d.Valid() && d.watchpoints == old(d.watchpoints) && d.threads == old(d.threads)
    ensures d.breakpoints == old(d.breakpoints) || d.breakpoints == RemoveAt(old(d.breakpoints), k)
    ensures d.model == SteppingHit(old(d.model), ti, k)
  {
    hide Debuggee.Valid, HitAt;
    d.HitBp(step, k);
    d.ThreadAt(ti);
    d.SetFlags(t, t.fl.(justHitSs := true, setTempSs := false), ti);
  }

  /** The part of handle_hit_breakpoint after a stepping breakpoint has been dealt with. */
  method HandleListedHit(d: Debuggee, t: MachThread, addr: nat, ghost ti: nat) returns (resume: bool)
    requires d.Valid() && ti < |d.threads| && d.threads[ti] == t
    modifies d, d.threads, d.breakpoints
    ensures d.Valid() && d.watchpoints == old(d.watchpoints) && d.threads == old(d.threads)
    ensures Outcome(d.model, resume) == ListedHit(old(d.model), ti, addr)
  {
    hide Debuggee.Valid, NormalHit;
    d.Lengths();
    var hit, k := d.FindBreakpoint(NormalAt(addr));
    if hit == null { return false; }
    d.BpAt(k);
    d.ThreadAt(ti);
    if hit.target.Only? && !hit.hw && t.tid != hit.target.tid { return true; }
    HandleNormalHit(d, t, hit, ti, k);
    resume := false;
  }

  /** The case of a hit stepping breakpoint, the k-th one listed. */
  method HandleSteppingFirst(d: Debuggee, t: MachThread, addr: nat, step: Breakpoint, ghost k: nat, ghost ti: nat) returns (resume: bool)
    requires d.Valid() && ti < |d.threads| && d.threads[ti] == t
    requires k < |d.breakpoints| && d.breakpoints[k] == step
    modifies d, d.threads, d.breakpoints
    ensures d.Valid() && d.watchpoints == old(d.watchpoints) && d.threads == old(d.threads)
    ensures Outcome(d.model, resume) == ListedHit(SteppingHit(old(d.model), ti, k), ti, addr)
  {
    HandleSteppingHit(d, t, step, k, ti);
    assert forall i :: 0 <= i < |d.breakpoints| ==> d.breakpoints[i] in old(d.breakpoints);
    resume := HandleListedHit(d, t, addr, ti);
  }

  method HandleHitBreakpoint(d: Debuggee, t: MachThread, addr: nat, ghost ti: nat) returns (resume: bool)
    requires d.Valid() && ti < |d.threads| && d.threads[ti] == t
    modifies d, d.threads, d.breakpoints
    ensures d.Valid() && d.watchpoints == old(d.watchpoints) && d.threads == old(d.threads)
    ensures Outcome(d.model, resume) == HandleHit(old(d.model), ti, addr)
  {
    hide Debuggee.Valid, ListedHit, SteppingHit;
    d.Lengths();
    var hit, _ := d.FindBreakpoint(NormalAt(addr));
    var step, k := d.FindBreakpoint(SteppingAt(addr));
    if hit == null && step == null { return true; }
    if step != null { resume := HandleSteppingFirst(d, t, addr, step, k, ti); }
    else { resume := HandleListedHit(d, t, addr, ti); }
  }

  method HandleStep(d: Debuggee, t: MachThread, ghost ti: nat) returns (resume: bool)
    requires d.Valid() && ti < |d.threads| && d.threads[ti] == t
    modifies d, d.threads, d.breakpoints
    ensures d.Valid() && d.watchpoints == old(d.watchpoints) && d.threads == old(d.threads) && d.breakpoints == old(d.breakpoints)
    ensures Outcome(d.model, resume) == HandleSingleStep(old(d.model), ti)
  {
    hide Debuggee.Valid, SetStates, SetStateById;
    d.SetBpStates(Normals, false);
    d.ThreadAt(ti);
    if t.fl.justHitBp {
      if t.fl.justHitSw {
        var _ := d.SetBpStateById(t.fl.lastBpId, false);
        d.ThreadAt(ti);
        d.SetFlags(t, t.fl.(justHitSw := false), ti);
      }
      d.ThreadAt(ti);
      resume := !t.fl.isStepping;
      var clear := resume && t.fl.stepKind.StepOver?;
      d.ThreadAt(ti);
      d.SetFlags(t, t.fl.(justHitSs := if clear then false else t.fl.justHitSs, justHitBp := false), ti);
    } else {
      resume := t.fl.stepKind.StepOver? && t.fl.setTempSs;
    }
  }

  method HandleHitWatchpoint(d: Debuggee, t: MachThread, ghost ti: nat) returns (resume: bool)
    requires d.Valid() && ti < |d.threads| && d.threads[ti] == t
    modifies d, d.threads, d.watchpoints
    ensures d.Valid() && d.watchpoints == old(d.watchpoints) && d.threads == old(d.threads) && d.breakpoints == old(d.breakpoints)
    ensures Outcome(d.model, resume) == HandleWatch(old(d.model), ti)
  {
    hide Debuggee.Valid, HitWpAt;
    d.Lengths();
    d.ThreadAt(ti);
    var wp, k := FindWpWithAddress(d, t.fl.lastWpLoc - t.fl.lastWpLoc % 8);
    if wp == null { return true; }
    d.HitWp(wp, k);
    d.ThreadAt(ti);
    d.SetFlags(t, t.fl.(lastWpLoc := 0), ti);
    resume := false;
  }

  method FindWpWithAddress(d: Debuggee, aligned: nat) returns (wp: Watchpoint?, ghost k: nat)
    requires d.Valid()
    ensures k == FirstWpAt(d.model.wps, aligned)
    ensures if k < |d.watchpoints| then wp == d.watchpoints[k] else wp == null
  {
    var i := 0;
    while i < |d.watchpoints|
      invariant 0 <= i <= |d.watchpoints|
      invariant forall j :: 0 <= j < i ==> d.model.wps[j].aligned != aligned
    {
      if d.watchpoints[i].aligned == aligned { return d.watchpoints[i], i; }
      i := i + 1;
    }
    wp, k := null, |d.watchpoints|;
  }

  /** A software step that is not a watchpoint's. */
  method HandleStepStop(d: Debuggee, t: MachThread, pc: nat, ghost ti: nat) returns (resume: bool)
    requires d.Valid() && ti < |d.threads| && d.threads[ti] == t
    modifies d, d.threads, d.breakpoints
    ensures d.Valid() && d.watchpoints == old(d.watchpoints) && d.threads == old(d.threads)
    ensures Outcome(d.model, resume) == StepStop(old(d.model), ti, pc)
  {
    hide Debuggee.Valid, HitAt, HandleSingleStep;
    d.Lengths();
    d.ThreadAt(ti);
    if t.fl.isStepping {
      var hit, k := d.FindBreakpoint(NormalAt(pc));
      if hit != null {
        d.BpAt(k);
        d.HitBp(hit, k);
      }
    }
    resume := HandleStep(d, t, ti);
    d.ThreadAt(ti);
    d.SetFlags(t, t.fl.(stepKind := StepNone, isStepping := false), ti);
  }

  method HandleBreakStop(d: Debuggee, t: MachThread, addr: nat, ghost ti: nat) returns (resume: bool)
    requires d.Valid() && ti < |d.threads| && d.threads[ti] == t
    modifies d, d.threads, d.breakpoints
    ensures d.Valid() && d.watchpoints == old(d.watchpoints) && d.threads == old(d.threads)
    ensures Outcome(d.model, resume) == BreakStop(old(d.model), ti, addr)
  {
    hide Debuggee.Valid, HandleHit;
    d.ThreadAt(ti);
    d.SetFlags(t, t.fl.(justHitBp := true), ti);
    resume := HandleHitBreakpoint(d, t, addr, ti);
    d.SetStep(t, true, ti);
  }

  method HandleWatchStop(d: Debuggee, t: MachThread, ghost ti: nat) returns (resume: bool)
    requires d.Valid() && ti < |d.threads| && d.threads[ti] == t
    modifies d, d.threads, d.watchpoints
    ensures d.Valid() && d.watchpoints == old(d.watchpoints) && d.threads == old(d.threads) && d.breakpoints == old(d.breakpoints)
    ensures Outcome(d.model, resume) == WatchStop(old(d.model), ti)
  {
    hide Debuggee.Valid, HandleWatch;
    resume := HandleHitWatchpoint(d, t, ti);
    d.ThreadAt(ti);
    d.SetFlags(t, t.fl.(justHitWp := false), ti);
  }

  /** handle_exception's dispatch, for the focused thread. */
  method Dispatch(d: Debuggee, t: MachThread, exc: Exc, pc: nat, ghost ti: nat) returns (resume: bool)
    requires d.Valid() && ti < |d.threads| && d.threads[ti] == t
    modifies d, d.threads, d.breakpoints, d.watchpoints
    ensures d.Valid() && d.watchpoints == old(d.watchpoints) && d.threads == old(d.threads)
    ensures Outcome(d.model, resume) == Handle(old(d.model), ti, exc, pc)
  {
    hide Debuggee.Valid, WatchStop, StepStop, BreakStop;
    d.ThreadAt(ti);
    match exc
    case Signal(stop) => resume := !stop;
    case Other => resume := false;
    case WatchHit(addr) =>
      d.ThreadAt(ti);
      d.SetFlags(t, t.fl.(justHitWp := true, lastWpLoc := addr), ti);
      d.SetStep(t, true, ti);
      resume := true;
    case Break(subcode) =>
      if subcode == 0 {
        if t.fl.justHitWp { resume := HandleWatchStop(d, t, ti); }
        else { resume := HandleStepStop(d, t, pc, ti); }
      } else {
        resume := HandleBreakStop(d, t, subcode, ti);
      }
  }

  method TakeFocus(d: Debuggee, port: nat)
    requires d.Valid()
    modifies d`model, d.threads
    ensures d.Valid() && d.model == FocusOn(old(d.model), port)
  {
    var t, ti := d.FocusedThread();
    assert t != null ==> d.model.threads[ti] == t.View();
    if t == null || t.port != port { d.FocusThread(port); }
  }

  /** handle_exception: focus the excepting thread, then dispatch; with no focus at all the
      exception is ignored and the debuggee resumes. */
  method HandleException(d: Debuggee, port: nat, exc: Exc, pc: nat) returns (resume: bool)
    requires d.Valid()
    modifies d, d.threads, d.breakpoints, d.watchpoints
    ensures d.Valid() && d.watchpoints == old(d.watchpoints) && d.threads == old(d.threads)
    ensures var s := FocusOn(old(d.model), port);
            var f := FirstFocused(s.threads);
            Outcome(d.model, resume) == if f == |s.threads| then Outcome(s, true) else Handle(s, f, exc, pc)
  {
    hide Debuggee.Valid, Handle, FocusOn, Find;
    TakeFocus(d, port);
    d.Lengths();
    var t, ti := d.FocusedThread();
    if t == null { return true; }
    resume := Dispatch(d, t, exc, pc, ti);
  }

  // ----- the step command

  method IsCallAt(d: Debuggee, pc: nat) returns (call: bool)
    requires d.Valid()
    ensures call == AtCall(d.model, pc)
  {
    var b, k := d.FindBreakpoint(NormalAt(pc));
    assert b != null ==> d.model.bps[k] == b.View();
    var opcode := if b != null then b.orig else Fetch(d.code, pc);
    var info := new Branch.BranchInfo();
    var branch := info.IsBranch(opcode);
    call := branch && info.isCall && info.rn != Branch.X30;
    assert branch ==> info.Value() == Branch.Decode(opcode);
  }

  method PrepareStep(d: Debuggee, t: MachThread, over: bool, pc: nat, ghost ti: nat)
    requires d.Valid() && ti < |d.threads| && d.threads[ti] == t
    modifies d, d.threads, d.breakpoints
    ensures d.Valid() && d.watchpoints == old(d.watchpoints) && d.threads == old(d.threads)
    ensures d.model == Prepare(old(d.model), ti, over, pc)
  {
    hide Debuggee.Valid, SetStates, AddBp, AtCall;
    d.SetBpStates(NonSteppings, true);
    d.ThreadAt(ti);
    d.SetFlags(t, t.fl.(stepKind := if over then StepOver else StepInto), ti);
    var call := false;
    if over { call := IsCallAt(d, pc); }
    if call {
      PlantBehindCall(d, t, pc, ti);
    } else {
      d.SetStep(t, true, ti);
      d.ThreadAt(ti);
      d.SetFlags(t, t.fl.(isStepping := true), ti);
    }
  }

  method PlantBehindCall(d: Debuggee, t: MachThread, pc: nat, ghost ti: nat)
    requires d.Valid() && ti < |d.threads| && d.threads[ti] == t
    modifies d, d.threads
    ensures d.Valid() && d.watchpoints == old(d.watchpoints) && d.threads == old(d.threads)
    ensures d.model == if old(d.model).threads[ti].fl.setTempSs then old(d.model) else
      var s := AddBp(old(d.model), pc + 4, true, true, old(d.model).threads[ti].id);
      WithFlags(s, ti, s.threads[ti].fl.(setTempSs := true))
  {
    hide Debuggee.Valid, AddBp;
    d.ThreadAt(ti);
    if !t.fl.setTempSs {
      var _ := d.AddBreakpoint(pc + 4, true, true, t.id);
      d.ThreadAt(ti);
      d.SetFlags(t, t.fl.(setTempSs := true), ti);
    }
  }
}
