/** What the debugger does when the debuggee stops (`exception.c`) and when the user
    asks for an instruction step (`cmd/stepcmd.c`). */
module Stops {
  import opened Engine
  import Branch

  // ----- focus

  function FirstFocused(ts: seq<Thread>): nat {
    Find(ts, ByFocus)
  }

  function FindPort(ts: seq<Thread>, port: nat): nat {
    Find(ts, ByPort(port))
  }

  /** set_focused_thread: the old focus is cleared last, so refocusing a thread unfocuses it. */
  function SetFocus(ts: seq<Thread>, port: nat): (ts': seq<Thread>)
    ensures |ts'| == |ts|
  {
    var prev := FirstFocused(ts);
    var next := FindPort(ts, port);
    if next == |ts| then ts
    else
      var ts1 := ts[next := ts[next].(focused := true)];
      if prev < |ts| then ts1[prev := ts1[prev].(focused := false)] else ts1
  }

  /** Refocusing the focused thread leaves no thread focused: exactly when is the port's thread the focus. */
  lemma SetFocusIff(ts: seq<Thread>, port: nat)
    requires forall i, j :: 0 <= i < j < |ts| ==> !(ts[i].focused && ts[j].focused)
    requires FindPort(ts, port) < |ts|
    ensures FirstFocused(SetFocus(ts, port)) == FindPort(ts, port) <==> FirstFocused(ts) != FindPort(ts, port)
  {
    var ts' := SetFocus(ts, port);
    var next := FindPort(ts, port);
    if FirstFocused(ts) != next {
      assert ts'[next].focused;
      assert forall i :: 0 <= i < |ts| && i != next ==> !ts'[i].focused;
    } else {
      assert forall i :: 0 <= i < |ts| ==> !ts'[i].focused;
    }
  }

  /** An exception gives its thread the focus unless it has it already. */
  function FocusOn(s: State, port: nat): (s': State)
    ensures |s'.threads| == |s.threads| && s' == s.(threads := s'.threads)
  {
    var f := FirstFocused(s.threads);
    if f < |s.threads| && s.threads[f].port == port then s else s.(threads := SetFocus(s.threads, port))
  }

  // ----- exceptions

  datatype Exc = WatchHit(addr: nat) | Break(subcode: nat) | Signal(stop: bool) | Other

  function WithFlags(s: State, ti: nat, fl: Flags): (s': State)
    requires ti < |s.threads|
    ensures |s'.threads| == |s.threads|
  {
    s.(threads := s.threads[ti := s.threads[ti].(fl := fl)])
  }

  function WithStep(s: State, ti: nat, on: bool): (s': State)
    requires ti < |s.threads|
    ensures |s'.threads| == |s.threads|
  {
    s.(threads := s.threads[ti := s.threads[ti].(regs := s.threads[ti].regs.(step := on))])
  }

  /** The new state, and whether this exception lets the debuggee resume by itself. */
  datatype Outcome = Outcome(s: State, resume: bool)

  /** What a normal breakpoint's hit does once the thread test has passed. */
  function NormalHit(s: State, ti: nat, k: nat): (s': State)
    requires ti < |s.threads| && k < |s.bps| && s.bps[k].Normal()
    ensures |s'.threads| == |s.threads|
  {
    var b := s.bps[k];
    var s1 := HitAt(s, k);
    var fl := s1.threads[ti].fl;
    if b.hw then WithFlags(s1, ti, fl.(lastBpId := b.id))
    else
      var s2 := SetStateById(WithFlags(s1, ti, fl.(justHitSw := true)), b.id, true);
      WithFlags(s2, ti, s2.threads[ti].fl.(lastBpId := b.id))
  }

  /** A hit stepping breakpoint goes away and is noted. */
  function SteppingHit(s: State, ti: nat, k: nat): (s': State)
    requires ti < |s.threads| && k < |s.bps|
    ensures |s'.threads| == |s.threads|
  {
    var s0 := HitAt(s, k);
    WithFlags(s0, ti, s0.threads[ti].fl.(justHitSs := true, setTempSs := false))
  }

  /** A software breakpoint meant for another thread is let pass. */
  function ListedHit(s: State, ti: nat, addr: nat): (o: Outcome)
    requires ti < |s.threads|
    ensures |o.s.threads| == |s.threads|
  {
    var k := First(s.bps, NormalAt(addr));
    if k == |s.bps| then Outcome(s, false)
    else if s.bps[k].target.Only? && !s.bps[k].hw && s.threads[ti].tid != s.bps[k].target.tid then Outcome(s, true)
    else Outcome(NormalHit(s, ti, k), false)
  }

  /** handle_hit_breakpoint for thread `ti` at `addr`. */
  function HandleHit(s: State, ti: nat, addr: nat): (o: Outcome)
    requires ti < |s.threads|
    ensures |o.s.threads| == |s.threads|
  {
    var hit := First(s.bps, NormalAt(addr));
    var step := First(s.bps, SteppingAt(addr));
    if hit == |s.bps| && step == |s.bps| then Outcome(s, true)
    else ListedHit(if step == |s.bps| then s else SteppingHit(s, ti, step), ti, addr)
  }

  /** handle_single_step. */
  function HandleSingleStep(s: State, ti: nat): (o: Outcome)
    requires ti < |s.threads|
    ensures |o.s.threads| == |s.threads|
  {
    var s1 := SetStates(s, Normals, false, 0);
    var fl := s1.threads[ti].fl;
    if fl.justHitBp then
      var s2 := if fl.justHitSw then
          var e := SetStateById(s1, fl.lastBpId, false);
          WithFlags(e, ti, e.threads[ti].fl.(justHitSw := false))
        else s1;
      var fl2 := s2.threads[ti].fl;
      if !fl2.isStepping then
        Outcome(WithFlags(s2, ti, fl2.(justHitSs := if fl2.stepKind.StepOver? then false else fl2.justHitSs, justHitBp := false)), true)
      else Outcome(WithFlags(s2, ti, fl2.(justHitBp := false)), false)
    else Outcome(s1, fl.stepKind.StepOver? && fl.setTempSs)
  }

  /** handle_hit_watchpoint. */
  function HandleWatch(s: State, ti: nat): (o: Outcome)
    requires ti < |s.threads|
    ensures |o.s.threads| == |s.threads|
  {
    var fl := s.threads[ti].fl;
    var k := FirstWpAt(s.wps, fl.lastWpLoc - fl.lastWpLoc % 8);
    if k == |s.wps| then Outcome(s, true)
    else Outcome(WithFlags(HitWpAt(s, k), ti, fl.(lastWpLoc := 0)), false)
  }

  /** The software step after a watchpoint's access. */
  function WatchStop(s: State, ti: nat): (o: Outcome)
    requires ti < |s.threads|
    ensures |o.s.threads| == |s.threads|
  {
    var o := HandleWatch(s, ti);
    Outcome(WithFlags(o.s, ti, o.s.threads[ti].fl.(justHitWp := false)), o.resume)
  }

  /** Any other software step: a breakpoint at the new `pc` counts as hit if the user is stepping. */
  function StepStop(s: State, ti: nat, pc: nat): (o: Outcome)
    requires ti < |s.threads|
    ensures |o.s.threads| == |s.threads|
  {
    var k := First(s.bps, NormalAt(pc));
    var s1 := if s.threads[ti].fl.isStepping && k < |s.bps| then HitAt(s, k) else s;
    var o := HandleSingleStep(s1, ti);
    Outcome(WithFlags(o.s, ti, o.s.threads[ti].fl.(stepKind := StepNone, isStepping := false)), o.resume)
  }

  /** A breakpoint exception at `addr`; the thread will single-step past it. */
  function BreakStop(s: State, ti: nat, addr: nat): (o: Outcome)
    requires ti < |s.threads|
    ensures |o.s.threads| == |s.threads|
  {
    var o := HandleHit(WithFlags(s, ti, s.threads[ti].fl.(justHitBp := true)), ti, addr);
    Outcome(WithStep(o.s, ti, true), o.resume)
  }

  /** The body of handle_exception for the focused thread `ti`, stopped at `pc`.
      A breakpoint exception whose subcode is 0 is read as a software step. */
  function Handle(s: State, ti: nat, exc: Exc, pc: nat): (o: Outcome)
    requires ti < |s.threads|
    ensures |o.s.threads| == |s.threads|
  {
    match exc
    case Signal(stop) => Outcome(s, !stop)
    case Other => Outcome(s, false)
    case WatchHit(addr) =>
      Outcome(WithStep(WithFlags(s, ti, s.threads[ti].fl.(justHitWp := true, lastWpLoc := addr)), ti, true), true)
    case Break(subcode) =>
      if subcode != 0 then BreakStop(s, ti, subcode)
      else if s.threads[ti].fl.justHitWp then WatchStop(s, ti)
      else StepStop(s, ti, pc)
  }

  // ----- instruction steps

  /** prepare(): `pc` is where the focused thread `ti` is stopped. */
  function Prepare(s: State, ti: nat, over: bool, pc: nat): (s': State)
    requires ti < |s.threads|
    ensures |s'.threads| == |s.threads|
  {
    var s1 := SetStates(s, NonSteppings, true, 0);
    var s2 := WithFlags(s1, ti, s1.threads[ti].fl.(stepKind := if over then StepOver else StepInto));
    if over && AtCall(s2, pc) then
      if s2.threads[ti].fl.setTempSs then s2
      else
        var s3 := AddBp(s2, pc + 4, true, true, s2.threads[ti].id);
        WithFlags(s3, ti, s3.threads[ti].fl.(setTempSs := true))
    else
      var s3 := WithStep(s2, ti, true);
      WithFlags(s3, ti, s3.threads[ti].fl.(isStepping := true))
  }

  /** The instruction at `pc`, behind a breakpoint if there is one, is a call that does not go through X30. */
  predicate AtCall(s: State, pc: nat) {
    var k := First(s.bps, NormalAt(pc));
    var word := if k < |s.bps| then s.bps[k].orig else Fetch(s.code, pc);
    Branch.Recognised(word) && Branch.Decode(word).isCall && Branch.Decode(word).rn != Branch.X30
  }
}
