/** What the two instruction-step commands do to the program (`cmd/stepcmd.c`). */
module StepCommands {
  import opened Engine
  import opened EngineInvariants
  import opened Stops
  import opened StopsInvariants
  import opened Transparency
  import opened Progress

  // ----- stepping uncovers the code

  /** Only breakpoints from the `k`-th on still cover a word. */
  ghost predicate CoveredFrom(s: State, orig: Code, k: nat) {
    && s.code.Keys == orig.Keys && (forall j :: 0 <= j < |s.bps| ==> s.bps[j].orig == Fetch(orig, s.bps[j].location))
    && forall a :: a in s.code && s.code[a] != orig[a] ==> exists j :: k <= j < |s.bps| && !s.bps[j].hw && s.bps[j].location == a
  }

  lemma DisableUncovers(s: State, orig: Code, k: nat)
    requires CoveredFrom(s, orig, k) && k < |s.bps|
    ensures CoveredFrom(SetState(s, k, true), orig, k + 1)
  {
    var s' := SetState(s, k, true);
    forall a | a in s'.code && s'.code[a] != orig[a] ensures exists j :: k + 1 <= j < |s'.bps| && !s'.bps[j].hw && s'.bps[j].location == a {
      assert s.code[a] != orig[a];
      var j :| k <= j < |s.bps| && !s.bps[j].hw && s.bps[j].location == a;
      assert j != k && s'.bps[j] == s.bps[j];
    }
  }

  lemma {:induction false} DisablesUncover(s: State, orig: Code, k: nat)
    requires CoveredFrom(s, orig, k) && k <= |s.bps| && forall j :: 0 <= j < |s.bps| ==> !s.bps[j].stepping
    ensures SetStates(s, NonSteppings, true, k).code == orig
    decreases |s.bps| - k
  {
    if k < |s.bps| {
      DisableUncovers(s, orig, k);
      DisablesUncover(SetState(s, k, true), orig, k + 1);
    } else {
      assert forall a :: a in s.code ==> s.code[a] == orig[a];
    }
  }

  /** Setting up a step puts the whole original code back while no stepping breakpoint is listed. */
  lemma StepUncoversAll(s: State, orig: Code)
    requires Inv(s, orig) && forall j :: 0 <= j < |s.bps| ==> !s.bps[j].stepping
    ensures SetStates(s, NonSteppings, true, 0).code == orig
  {
    forall a | a in s.code && s.code[a] != orig[a] ensures exists j :: 0 <= j < |s.bps| && !s.bps[j].hw && s.bps[j].location == a {
      assert PatchedAt(s.bps, a);
    }
    DisablesUncover(s, orig, 0);
  }

  lemma StepIs<M>(cpu: Cpu<M>, r: Run<M>, pc: nat)
    requires |r.s.threads| == 1 && r.s.threads[0].focused
    ensures Next(cpu, r, Step(false, pc)) == r.(s := Prepare(r.s, 0, false, pc), running := true)
    ensures var s, s1 := Prepare(r.s, 0, false, pc), SetStates(r.s, NonSteppings, true, 0);
      s.code == s1.code && |s1.threads| == 1 && s.threads[0].regs.step && s.threads[0].fl == s1.threads[0].fl.(stepKind := StepInto, isStepping := true)
  {
    hide SetStates, AddBp, AtCall;
  }

  /** A step into executes exactly one native instruction, whatever breakpoints are at it, software or
      hardware, then stops with every breakpoint enabled again. */
  lemma StepExecutesOne<M>(cpu: Cpu<M>, orig: Code, r: Run<M>, pc: nat)
    requires Inv(r.s, orig) && Good(r.s) && !r.running && Fetch(orig, cpu.pc(r.m, 0)) != BRK
    ensures var at := cpu.pc(r.m, 0);
            var word := Fetch(orig, at);
            var r' := Next(cpu, Next(cpu, r, Step(false, pc)), Tick(0));
            && r'.trace == r.trace + [Insn(0, at, word)] && r'.m == cpu.exec(r.m, 0, word)
            && !r'.running && AllEnabled(r'.s.bps) && !r'.s.threads[0].regs.step
  {
    hide First, Inv, StepStop, HwMatch;
    var word := Fetch(orig, cpu.pc(r.m, 0));
    StepUncoversAll(r.s, orig);
    SetStatesEffect(r.s, NonSteppings, true, 0);
    StepGood(r.s, pc);
    StepIs(cpu, r, pc);
    hide SetStates, Prepare, Next, PlainBps;
    var r1 := r.(s := Prepare(r.s, 0, false, pc), running := true);
    assert r1.s.code == orig && r1.s.threads[0].regs.step && r1.s.threads[0].fl.isStepping;
    SteppedTick(cpu, r1);
    var r2 := Run(WithStep(r1.s, 0, false), cpu.exec(r1.m, 0, word), r1.running, r1.trace + [Insn(0, cpu.pc(r.m, 0), word)]);
    StepStopEnables(r2.s, cpu.pc(r2.m, 0));
  }

  // ----- stepping over a call

  /** Stepping over looks at the original word, behind a breakpoint or not: there is a call exactly for BL
      and for the calls through a register other than X30. */
  lemma AtCallIff(s: State, pc: nat, orig: Code)
    requires Inv(s, orig) && (First(s.bps, NormalAt(pc)) < |s.bps| || Fetch(s.code, pc) == Fetch(orig, pc))
    ensures AtCall(s, pc) <==> Branch.CallWord(Fetch(orig, pc))
  {
    Branch.CallWordIff(Fetch(orig, pc));
    CodeRemembers(s, orig);
    hide Inv, Branch.Decode, Branch.Recognised, Branch.CallWord, First;
  }

  lemma CodeRemembers(s: State, orig: Code)
    requires Inv(s, orig)
    ensures Remembered(s.bps, orig)
  {
  }

  /** With no stepping breakpoint listed, stepping over plants a breakpoint exactly at such a call, and
      else steps one instruction. */
  lemma StepOverIff(s: State, ti: nat, pc: nat, orig: Code)
    requires Inv(s, orig) && ti < |s.threads| && !s.threads[ti].fl.setTempSs && forall j :: 0 <= j < |s.bps| ==> !s.bps[j].stepping
    ensures var s' := Prepare(s, ti, true, pc);
            if Branch.CallWord(Fetch(orig, pc)) then
              |s'.bps| == |s.bps| + 1 && s'.bps[|s.bps|].location == pc + 4 && s'.bps[|s.bps|].stepping && s'.threads[ti].regs.step == s.threads[ti].regs.step
            else |s'.bps| == |s.bps| && s'.threads[ti].regs.step
  {
    var s1 := SetStates(s, NonSteppings, true, 0);
    SetStatesKeeps(s, NonSteppings, true, 0, orig);
    StepUncoversAll(s, orig);
    SetStatesThreads(s, NonSteppings, true, 0);
    AtCallIff(s1, pc, orig);
    InvNumbered(s, orig);
    hide SetStates, AtCall, First, Find, AddBp, Inv, Branch.CallWord;
    var s2 := WithFlags(s1, ti, s1.threads[ti].fl.(stepKind := StepOver));
    SameCall(s1, s2, pc);
    AddForThread(s2, ti, pc + 4);
    if AtCall(s1, pc) {
      AddKeepsStep(s2, ti, pc + 4);
    }
  }

  lemma InvNumbered(s: State, orig: Code)
    requires Inv(s, orig)
    ensures Numbered(s.threads)
  {
  }

  lemma AddKeepsStep(s: State, ti: nat, loc: nat)
    requires ti < |s.threads|
    ensures AddBp(s, loc, true, true, s.threads[ti].id).threads[ti].regs.step == s.threads[ti].regs.step
  {
    hide First, Find;
  }

  /** Stepping over a call sets one temporary breakpoint, for this thread, behind the call. */
  lemma StepOverPlants(s: State, ti: nat, pc: nat)
    requires ti < |s.threads| && Numbered(s.threads)
    requires AtCall(SetStates(s, NonSteppings, true, 0), pc) && !SetStates(s, NonSteppings, true, 0).threads[ti].fl.setTempSs
    ensures var s' := Prepare(s, ti, true, pc);
            var n := |s.bps|;
            && |s'.bps| == n + 1 && s'.bps[n].location == pc + 4 && s'.bps[n].temporary && s'.bps[n].stepping && !s'.bps[n].disabled
            && s'.bps[n].target == Only(ti + 1, s'.threads[ti].tid)
            && s'.bps[..n] == SetStates(s, NonSteppings, true, 0).bps
            && s'.threads[ti].fl.setTempSs
  {
    hide SetStates, AtCall, First, Find, AddBp;
    var s1 := SetStates(s, NonSteppings, true, 0);
    SetStatesThreads(s, NonSteppings, true, 0);
    var s2 := WithFlags(s1, ti, s1.threads[ti].fl.(stepKind := StepOver));
    SameCall(s1, s2, pc);
    AddForThread(s2, ti, pc + 4);
  }

  /** A temporary stepping breakpoint for a listed thread. */
  lemma AddForThread(s: State, ti: nat, loc: nat)
    requires ti < |s.threads| && forall i :: 0 <= i < |s.threads| ==> s.threads[i].id == i + 1
    ensures var s' := AddBp(s, loc, true, true, s.threads[ti].id);
            var n := |s.bps|;
            && |s'.bps| == n + 1 && s'.bps[..n] == s.bps && s'.bps[n].location == loc
            && s'.bps[n].temporary && s'.bps[n].stepping && !s'.bps[n].disabled
            && s'.bps[n].target == Only(ti + 1, s'.threads[ti].tid) && s'.threads[ti].fl == s.threads[ti].fl
  {
    hide First;
    OwnThread(s.threads, ti);
    hide Find;
    var b := MakeBp(s, loc, true, true, ti + 1);
    assert AddBp(s, loc, true, true, ti + 1).bps == s.bps + [b];
  }

  lemma SameCall(s: State, t: State, pc: nat)
    requires s.bps == t.bps && s.code == t.code
    ensures AtCall(s, pc) == AtCall(t, pc)
  {
  }

  lemma OwnThread(ts: seq<Thread>, ti: nat)
    requires ti < |ts| && forall i :: 0 <= i < |ts| ==> ts[i].id == i + 1
    ensures FindId(ts, ts[ti].id) == ti
  {
  }

  lemma {:induction false} SetStatesThreads(s: State, c: Choice, disabled: bool, k: nat)
    requires k <= |s.bps|
    ensures |SetStates(s, c, disabled, k).bps| == |s.bps|
    ensures forall i :: 0 <= i < |s.threads| ==>
              var t := SetStates(s, c, disabled, k).threads[i];
              t.id == s.threads[i].id && t.fl == s.threads[i].fl && t.regs.step == s.threads[i].regs.step
    decreases |s.bps| - k
  {
    if k < |s.bps| { SetStatesThreads(SetChosen(s, c, disabled, k), c, disabled, k + 1); }
  }

  /** A software breakpoint meant for another thread. */
  predicate Passes(b: Bp, t: Thread) {
    b.target.Only? && !b.hw && t.tid != b.target.tid
  }

  /** When the call returns there, the temporary breakpoint is gone with all it left in the code or in
      the registers of the threads it was for, and the thread will step past it. An ordinary breakpoint
      at the same address counts the hit; the debuggee goes on by itself exactly if that one is a
      software breakpoint for another thread. */
  lemma StepOverReturns(s: State, ti: nat, addr: nat, orig: Code)
    requires Inv(s, orig) && ti < |s.threads|
    requires First(s.bps, SteppingAt(addr)) < |s.bps| && s.bps[First(s.bps, SteppingAt(addr))].temporary
    ensures var o := BreakStop(s, ti, addr);
            var k := First(s.bps, SteppingAt(addr));
            var b, rest := s.bps[k], RemoveAt(s.bps, k);
            var n := First(rest, NormalAt(addr));
            && (o.resume <==> n < |rest| && Passes(rest[n], s.threads[ti]))
            && SameBps(rest, o.s.bps) && (if n == |rest| || o.resume then o.s.bps == rest else o.s.bps[n].hits == rest[n].hits + 1)
            && (!b.hw && addr in s.code ==> addr in o.s.code && o.s.code[addr] == orig[addr])
            && (b.hw && (n == |rest| || o.resume || rest[n].hw) ==> o.s.code == s.code)
            && (b.hw ==> Disarmed(o.s.threads, b.target, b.reg))
            && o.s.threads[ti].regs.step && o.s.threads[ti].fl.justHitSs && !o.s.threads[ti].fl.setTempSs
  {
    var k := First(s.bps, SteppingAt(addr));
    var b := s.bps[k];
    var s0 := WithFlags(s, ti, s.threads[ti].fl.(justHitBp := true));
    var s1 := SteppingHit(s0, ti, k);
    SteppingGone(s0, ti, k, addr, orig);
    assert BreakStop(s, ti, addr) == Outcome(WithStep(ListedHit(s1, ti, addr).s, ti, true), ListedHit(s1, ti, addr).resume);
    hide First, SteppingHit, BreakStop, Inv, Disarmed, ListedHit, SameBps, Remembered;
    ListedHitLeaves(s1, ti, addr, orig, b.target, b.reg);
    SameAsIs(s1.bps);
    StepKeepsDisarmed(ListedHit(s1, ti, addr).s, ti, b.target, b.reg);
  }

  lemma ListedHitLeaves(s: State, ti: nat, addr: nat, orig: Code, g: Target, reg: int)
    requires ti < |s.threads| && Remembered(s.bps, orig) && s.code.Keys == orig.Keys
    ensures var o, n := ListedHit(s, ti, addr), First(s.bps, NormalAt(addr));
            && (o.resume <==> n < |s.bps| && Passes(s.bps[n], s.threads[ti]))
            && if n == |s.bps| || o.resume then o.s == s
               else Softer(s, o.s, ti, orig, g, reg) && o.s.bps[n].hits == s.bps[n].hits + 1 && (s.bps[n].hw ==> o.s.code == s.code)
  {
    var n := First(s.bps, NormalAt(addr));
    hide Softer, NormalHit, Remembered;
    if n < |s.bps| { NormalHitSofter(s, ti, n, orig, g, reg); }
  }

  lemma SameAsIs(bps: seq<Bp>)
    ensures SameBps(bps, bps)
  {
  }

  predicate Remembered(bps: seq<Bp>, orig: Code) {
    forall j :: 0 <= j < |bps| ==> bps[j].orig == Fetch(orig, bps[j].location)
  }

  /** What is left when the stepping breakpoint has gone. */
  lemma SteppingGone(s: State, ti: nat, k: nat, addr: nat, orig: Code)
    requires CodeOk(s, orig) && ti < |s.threads| && k < |s.bps| && s.bps[k].temporary && s.bps[k].location == addr
    ensures var s1, b := SteppingHit(s, ti, k), s.bps[k];
            && s1.bps == RemoveAt(s.bps, k) && s1.code.Keys == s.code.Keys
            && s.code.Keys == orig.Keys && Remembered(s1.bps, orig)
            && (if b.hw then s1.code == s.code && Disarmed(s1.threads, b.target, b.reg) else addr in s.code ==> s1.code[addr] == orig[addr])
            && s1.threads[ti].tid == s.threads[ti].tid && s1.threads[ti].fl == s.threads[ti].fl.(justHitSs := true, setTempSs := false)
  {
  }

  /** The register is armed on no thread that the target is for. */
  ghost predicate Disarmed(ts: seq<Thread>, g: Target, reg: int) {
    forall i :: 0 <= i < |ts| && Targets(g, ts[i]) && 0 <= reg < NUM_SLOTS ==> ts[i].regs.breaks[reg].ctl == 0
  }

  lemma StepKeepsDisarmed(s: State, ti: nat, g: Target, reg: int)
    requires ti < |s.threads|
    ensures Disarmed(WithStep(s, ti, true).threads, g, reg) == Disarmed(s.threads, g, reg)
  {
    var ts := WithStep(s, ti, true).threads;
    assert forall i :: 0 <= i < |ts| ==> ts[i].id == s.threads[i].id && ts[i].regs.breaks == s.threads[i].regs.breaks;
  }

  /** Nothing has changed but hit counts, enabling, notes about breakpoints, words that are the original
      ones again and registers that are cleared. */
  ghost predicate Softer(s: State, s': State, ti: nat, orig: Code, g: Target, reg: int) {
    && ti < |s.threads| == |s'.threads| && SameBps(s.bps, s'.bps)
    && s'.code.Keys == s.code.Keys && (forall a :: a in s.code && a in s'.code ==> s'.code[a] == s.code[a] || (a in orig && s'.code[a] == orig[a]))
    && (Disarmed(s.threads, g, reg) ==> Disarmed(s'.threads, g, reg))
    && s'.threads[ti].fl.justHitSs == s.threads[ti].fl.justHitSs && s'.threads[ti].fl.setTempSs == s.threads[ti].fl.setTempSs
  }

  lemma SofterTwice(s: State, s1: State, s': State, ti: nat, orig: Code, g: Target, reg: int)
    requires Softer(s, s1, ti, orig, g, reg) && Softer(s1, s', ti, orig, g, reg)
    ensures Softer(s, s', ti, orig, g, reg)
  {
    hide Disarmed;
  }

  lemma FlagsSofter(s: State, ti: nat, fl: Flags, orig: Code, g: Target, reg: int)
    requires ti < |s.threads| && fl.justHitSs == s.threads[ti].fl.justHitSs && fl.setTempSs == s.threads[ti].fl.setTempSs
    ensures Softer(s, WithFlags(s, ti, fl), ti, orig, g, reg)
  {
    var ts := WithFlags(s, ti, fl).threads;
    assert forall i :: 0 <= i < |ts| ==> ts[i].id == s.threads[i].id && ts[i].regs.breaks == s.threads[i].regs.breaks;
  }

  /** Disabling by number, whichever breakpoint has it. */
  lemma SwitchOffSofter(s: State, ti: nat, id: int, orig: Code, g: Target, reg: int)
    requires ti < |s.threads| && Remembered(s.bps, orig) && s.code.Keys == orig.Keys
    ensures Softer(s, SetStateById(s, id, true), ti, orig, g, reg)
    ensures forall j :: 0 <= j < |s.bps| ==> SetStateById(s, id, true).bps[j].hits == s.bps[j].hits
  {
    hide First;
  }

  /** The hit of an ordinary breakpoint at most writes original words and clears registers. */
  lemma NormalHitSofter(s: State, ti: nat, n: nat, orig: Code, g: Target, reg: int)
    requires ti < |s.threads| && n < |s.bps| && s.bps[n].Normal() && Remembered(s.bps, orig) && s.code.Keys == orig.Keys
    ensures var s' := NormalHit(s, ti, n);
            && Softer(s, s', ti, orig, g, reg) && s'.bps[n].hits == s.bps[n].hits + 1 && (s.bps[n].hw ==> s'.code == s.code)
  {
    var b := s.bps[n];
    var s1 := HitAt(s, n);
    assert s1 == s.(bps := s.bps[n := b.(hits := b.hits + 1)]) && Remembered(s1.bps, orig);
    assert Softer(s, s1, ti, orig, g, reg);
    hide HitAt, Softer, SetStateById, Remembered, SameBps;
    var fl := s1.threads[ti].fl;
    if b.hw {
      FlagsSofter(s1, ti, fl.(lastBpId := b.id), orig, g, reg);
      SofterTwice(s, s1, NormalHit(s, ti, n), ti, orig, g, reg);
    } else {
      var s2 := WithFlags(s1, ti, fl.(justHitSw := true));
      var s3 := SetStateById(s2, b.id, true);
      FlagsSofter(s1, ti, fl.(justHitSw := true), orig, g, reg);
      SwitchOffSofter(s2, ti, b.id, orig, g, reg);
      FlagsSofter(s3, ti, s3.threads[ti].fl.(lastBpId := b.id), orig, g, reg);
      SofterTwice(s, s1, s2, ti, orig, g, reg);
      SofterTwice(s, s2, s3, ti, orig, g, reg);
      SofterTwice(s, s3, NormalHit(s, ti, n), ti, orig, g, reg);
    }
  }

  // ----- what leaves breakpoints disabled

  predicate AllDisabled(bps: seq<Bp>) {
    forall k :: 0 <= k < |bps| ==> bps[k].disabled
  }

  /** All `n` breakpoints are disabled and no step is pending that would enable them. */
  predicate NothingArmed(s: State, n: nat) {
    |s.threads| == 1 && !s.threads[0].regs.step && |s.bps| == n && AllDisabled(s.bps)
  }

  /** Interrupting takes the pending step away: breakpoints stay re-armed exactly if all were enabled. */
  lemma InterruptRearmedIff(s: State)
    requires |s.threads| == 1
    ensures Rearmed(ClearSteps(s)) <==> AllEnabled(s.bps)
  {
  }

  lemma PrepareOver(s: State, pc: nat)
    requires Good(s) && AtCall(SetStates(s, NonSteppings, true, 0), pc)
    ensures var s', n := Prepare(s, 0, true, pc), |s.bps|;
            && |s'.bps| >= n && AllDisabled(s'.bps[..n]) && (forall k :: n <= k < |s'.bps| ==> !s'.bps[k].disabled)
            && (forall k :: 0 <= k < n ==> !s'.bps[k].stepping)
            && |s'.threads| == 1 && SameButNotes(s.threads[0], s'.threads[0])
  {
    hide AtCall, SetStates, First;
    var s1 := SetStates(s, NonSteppings, true, 0);
    SetStatesEffect(s, NonSteppings, true, 0);
    var s2 := WithFlags(s1, 0, s1.threads[0].fl.(stepKind := StepOver));
    SameCall(s1, s2, pc);
    AddTemporary(s2, pc + 4);
  }

  predicate SameButNotes(t: Thread, t': Thread) {
    t'.port == t.port && t'.focused == t.focused && t'.regs.step == t.regs.step
  }

  /** Setting up a step over a call disables every ordinary breakpoint and sets no step that would enable
      them again: they stay re-armed exactly if a step is pending already or none is listed. */
  lemma StepOverRearmedIff(s: State, pc: nat)
    requires Good(s) && AtCall(SetStates(s, NonSteppings, true, 0), pc)
    ensures Rearmed(Prepare(s, 0, true, pc)) <==> s.threads[0].regs.step || s.bps == []
  {
    hide AtCall, SetStates, Prepare;
    PrepareOver(s, pc);
    if s.bps != [] { assert Prepare(s, 0, true, pc).bps[..|s.bps|][0].disabled; }
  }

  lemma AddTemporary(s: State, loc: nat)
    requires |s.threads| == 1
    ensures var s' := AddBp(s, loc, true, true, s.threads[0].id);
            && |s'.threads| == 1 && SameButNotes(s.threads[0], s'.threads[0])
            && |s'.bps| == |s.bps| + 1 && s'.bps[..|s.bps|] == s.bps && !s'.bps[|s.bps|].disabled
  {
    hide First;
    OnlyThread(s.threads);
    hide Find;
    assert AddBp(s, loc, true, true, s.threads[0].id).bps == s.bps + [MakeBp(s, loc, true, true, s.threads[0].id)];
  }

  lemma OnlyThread(ts: seq<Thread>)
    requires |ts| == 1
    ensures FindId(ts, ts[0].id) == 0
  {
  }

  /** The step behind a watched access, whose step bit the kernel has cleared, enables nothing. */
  lemma WatchStopRearmedIff(s: State)
    requires |s.threads| == 1
    ensures Rearmed(WatchStop(WithStep(s, 0, false), 0).s) <==> AllEnabled(s.bps)
  {
  }

  lemma StepOverIs<M>(cpu: Cpu<M>, r: Run<M>, pc: nat)
    requires |r.s.threads| == 1 && r.s.threads[0].focused
    ensures Next(cpu, r, Step(true, pc)) == r.(s := Prepare(r.s, 0, true, pc), running := true)
  {
    hide Prepare;
  }

  lemma SignalStops<M>(cpu: Cpu<M>, r: Run<M>)
    requires |r.s.threads| == 1 && r.s.threads[0].focused
    ensures Next(cpu, r, Raise(r.s.threads[0].port, Signal(true))) == r.(running := false)
  {
    assert FocusOn(r.s, r.s.threads[0].port) == r.s;
  }

  /** One planted breakpoint is what `continue` deletes. */
  lemma ContinueUnplants(s: State, n: nat)
    requires |s.threads| == 1 && |s.bps| == n + 1 && s.bps[n].stepping && forall k :: 0 <= k < n ==> !s.bps[k].stepping
    ensures var s' := DeleteFrom(s, Steppings, 0);
      s'.bps == s.bps[..n] && |s'.threads| == 1 && s'.threads[0].regs.step == s.threads[0].regs.step
  {
    DeleteFromEffect(s, Steppings, 0);
    DeleteFromSpares(s, Steppings, 0);
    AllSpared(s.bps, n);
    assert s.bps[0..] == s.bps;
  }

  lemma {:induction false} AllSpared(bps: seq<Bp>, n: nat)
    requires |bps| == n + 1 && bps[n].stepping && forall k :: 0 <= k < n ==> !bps[k].stepping
    ensures Spared(bps, Steppings) == bps[..n]
    decreases n
  {
    if n > 0 {
      AllSpared(bps[1..], n - 1);
      assert bps[..n] == [bps[0]] + bps[1..][..n - 1];
    }
  }

  /** Step over a call, stop on a signal before it returns, continue: the debuggee runs with every
      breakpoint disabled and no step pending, so none can be hit. */
  lemma StepOverThenContinue<M>(cpu: Cpu<M>, r: Run<M>, pc: nat)
    requires Good(r.s) && Numbered(r.s.threads) && !r.s.threads[0].regs.step
    requires AtCall(SetStates(r.s, NonSteppings, true, 0), pc) && !SetStates(r.s, NonSteppings, true, 0).threads[0].fl.setTempSs
    ensures var stopped := Next(cpu, Next(cpu, r, Step(true, pc)), Raise(r.s.threads[0].port, Signal(true)));
            var on := Next(cpu, stopped, Continue);
            on.running && NothingArmed(on.s, |r.s.bps|)
  {
    hide AtCall, SetStates, First, Prepare, AddBp;
    var s1 := Prepare(r.s, 0, true, pc);
    StepOverIs(cpu, r, pc);
    StepOverPlants(r.s, 0, pc);
    PrepareOver(r.s, pc);
    SignalStops(cpu, r.(s := s1, running := true));
    ContinueIs(cpu, r.(s := s1, running := false));
    hide Next, Good;
    ContinueUnplants(s1, |r.s.bps|);
  }

  /** The thread is about to touch watched data. */
  lemma WatchIs<M>(cpu: Cpu<M>, r: Run<M>, addr: nat)
    requires |r.s.threads| == 1 && r.s.threads[0].focused
    ensures var r' := Next(cpu, r, Raise(r.s.threads[0].port, WatchHit(addr)));
            var t := r.s.threads[0];
            r' == r.(s := r.s.(threads := [t.(fl := t.fl.(justHitWp := true, lastWpLoc := addr), regs := t.regs.(step := true))]), running := true)
  {
    assert FocusOn(r.s, r.s.threads[0].port) == r.s;
  }

  /** The step behind the access: one instruction, then the watchpoint's handler. */
  lemma WatchTick<M>(cpu: Cpu<M>, r: Run<M>)
    requires r.running && |r.s.threads| == 1 && r.s.threads[0].focused && r.s.threads[0].fl.justHitWp
    requires r.s.threads[0].regs.step && Fetch(r.s.code, cpu.pc(r.m, 0)) != BRK
    ensures var pc := cpu.pc(r.m, 0);
      var word := Fetch(r.s.code, pc);
      var o := WatchStop(WithStep(r.s, 0, false), 0);
      Next(cpu, r, Tick(0)) == Run(o.s, cpu.exec(r.m, 0, word), o.resume, r.trace + [Insn(0, pc, word)])
  {
    hide WatchStop, HwMatch;
    assert FocusOn(WithStep(r.s, 0, false), r.s.threads[0].port) == WithStep(r.s, 0, false);
  }

  /** Some watchpoint covers the address. */
  predicate Watched(wps: seq<Wp>, addr: nat) {
    FirstWpAt(wps, addr - addr % 8) < |wps|
  }

  /** A step into at whose instruction the thread touches watched data. */
  function StepAtWatch<M>(cpu: Cpu<M>, r: Run<M>, pc: nat, port: nat, addr: nat): Run<M> {
    Next(cpu, Next(cpu, Next(cpu, r, Step(false, pc)), Raise(port, WatchHit(addr))), Tick(0))
  }

  /** It executes the instruction and leaves every breakpoint disabled with no step pending, stopped
      if a watchpoint is found there and running on if not. */
  lemma StepAtWatchDisables<M>(cpu: Cpu<M>, orig: Code, r: Run<M>, pc: nat, addr: nat)
    requires Inv(r.s, orig) && |r.s.threads| == 1 && r.s.threads[0].focused && PlainBps(r.s.bps, r.s.nextBp)
    requires Fetch(orig, cpu.pc(r.m, 0)) != BRK
    ensures var on := StepAtWatch(cpu, r, pc, r.s.threads[0].port, addr);
            && on.trace == r.trace + [Insn(0, cpu.pc(r.m, 0), Fetch(orig, cpu.pc(r.m, 0)))]
            && NothingArmed(on.s, |r.s.bps|) && (on.running <==> !Watched(r.s.wps, addr))
  {
    hide First, Inv, HwMatch, AtCall, SetStates, PlainBps, Find, Next;
    PlainNormal(r.s.bps, r.s.nextBp);
    StepUncoversAll(r.s, orig);
    SetStatesEffect(r.s, NonSteppings, true, 0);
    StepIs(cpu, r, pc);
    StepSetUp(r.s, pc);
    var r1 := r.(s := Prepare(r.s, 0, false, pc), running := true);
    hide Prepare, WatchStop, FirstWpAt;
    WatchIs(cpu, r1, addr);
    var r2 := Next(cpu, r1, Raise(r.s.threads[0].port, WatchHit(addr)));
    WatchTick(cpu, r2);
    WatchStopLeaves(WithStep(r2.s, 0, false), addr);
  }

  lemma PlainNormal(bps: seq<Bp>, next: int)
    requires PlainBps(bps, next)
    ensures forall j :: 0 <= j < |bps| ==> bps[j].Normal()
  {
  }

  lemma StepSetUp(s: State, pc: nat)
    requires |s.threads| == 1
    ensures var s', s1 := Prepare(s, 0, false, pc), SetStates(s, NonSteppings, true, 0);
            s'.bps == s1.bps && s'.wps == s1.wps && |s'.threads| == 1
            && s'.threads[0].port == s1.threads[0].port && s'.threads[0].focused == s1.threads[0].focused
  {
    hide SetStates, AtCall, AddBp;
  }

  lemma WatchStopLeaves(s: State, addr: nat)
    requires |s.threads| == 1 && s.threads[0].fl.lastWpLoc == addr
    ensures var o := WatchStop(s, 0);
            && o.s.bps == s.bps && |o.s.threads| == 1 && o.s.threads[0].regs.step == s.threads[0].regs.step
            && (o.resume <==> !Watched(s.wps, addr))
  {
  }
}
