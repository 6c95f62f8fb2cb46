/** Whole runs of a debuggee under the debugger, and the theorem that the debugger is
    transparent: whatever the user sets, deletes, continues or steps, the debuggee executes
    the instructions it would execute natively. */
module Transparency {
  import opened Engine
  import opened EngineInvariants
  import opened Stops
  import opened StopsInvariants

  /** The processor, as far as a debugger cares: each thread's program counter in a machine
      state, and the effect of executing one instruction word on one thread. */
  datatype Cpu<!M> = Cpu(pc: (M, nat) -> nat, exec: (M, nat, Word) -> M)

  /** One executed instruction. */
  datatype Insn = Insn(ti: nat, pc: nat, word: Word)

  /** `trace` lists the executed instructions, oldest first. */
  datatype Run<M> = Run(s: State, m: M, running: bool, trace: seq<Insn>)

  datatype Event =
    | Tick(ti: nat)                                  // thread ti's turn on the processor
    | Raise(port: nat, exc: Exc)                     // any exception the environment delivers
    | SetBp(loc: nat, thread: int)                   // the user's commands
    | DeleteBp(bp: int)
    | DeleteAllBps
    | SetWp(loc: nat, len: nat, lsc: nat, thread: int, readable: bool)
    | DeleteWp(wp: int)
    | Focus(port: nat)
    | Continue
    | Step(over: bool, pc: nat)                      // pc: the counter last read for the focus
    | Interrupt

  predicate HwMatch(t: Thread, pc: nat) {
    exists r :: 0 <= r < NUM_SLOTS && t.regs.breaks[r].ctl & 1 == 1 && t.regs.breaks[r].val == pc
  }

  /** The kernel suspends the debuggee, the server handles the exception and perhaps resumes. */
  function Deliver<M>(cpu: Cpu<M>, r: Run<M>, port: nat, exc: Exc): (r': Run<M>)
  {
    var s1 := FocusOn(r.s, port);
    var f := FirstFocused(s1.threads);
    if f == |s1.threads| then r.(s := s1, running := true)
    else
      var o := Handle(s1, f, exc, cpu.pc(r.m, f));
      r.(s := o.s, running := o.resume)
  }

  /** A thread's turn: BRK and armed hardware breakpoints trap before executing, the latter
      only while not single-stepping; a pending software step traps after one instruction,
      and the kernel clears the step bit when it delivers that exception. */
  function Turn<M>(cpu: Cpu<M>, r: Run<M>, ti: nat): (r': Run<M>)
    requires ti < |r.s.threads|
  {
    var pc := cpu.pc(r.m, ti);
    var word := Fetch(r.s.code, pc);
    var t := r.s.threads[ti];
    if word == BRK || (!t.regs.step && HwMatch(t, pc)) then Deliver(cpu, r, t.port, Break(pc))
    else
      var r1 := r.(m := cpu.exec(r.m, ti, word), trace := r.trace + [Insn(ti, pc, word)]);
      if t.regs.step then Deliver(cpu, r1.(s := WithStep(r.s, ti, false)), t.port, Break(0)) else r1
  }

  /** The interrupt command clears every thread's step bit. */
  function ClearSteps(s: State): (s': State)
  {
    s.(threads := seq(|s.threads|, i requires 0 <= i < |s.threads| => s.threads[i].(regs := s.threads[i].regs.(step := false))))
  }

  function Next<M>(cpu: Cpu<M>, r: Run<M>, e: Event): (r': Run<M>)
  {
    match e
    case Tick(ti) => if r.running && ti < |r.s.threads| then Turn(cpu, r, ti) else r
    case Raise(port, exc) => Deliver(cpu, r, port, exc)
    case SetBp(loc, thread) => r.(s := AddBp(r.s, loc, false, false, thread))
    case DeleteBp(id) => r.(s := DeleteById(r.s, id))
    case DeleteAllBps => r.(s := DeleteFrom(r.s, Every, 0))
    case SetWp(loc, len, lsc, thread, readable) => r.(s := AddWp(r.s, loc, len, lsc, thread, readable))
    case DeleteWp(id) => r.(s := DeleteWpById(r.s, id))
    case Focus(port) => r.(s := r.s.(threads := SetFocus(r.s.threads, port)))
    case Continue => if r.running then r else r.(s := DeleteFrom(r.s, Steppings, 0), running := true)
    case Step(over, pc) =>
      var f := FirstFocused(r.s.threads);
      if f == |r.s.threads| then r else r.(s := Prepare(r.s, f, over, pc), running := true)
    case Interrupt => r.(s := ClearSteps(r.s))
  }

  function RunAll<M>(cpu: Cpu<M>, r: Run<M>, es: seq<Event>): (r': Run<M>)
    decreases |es|
  {
    if es == [] then r else Next(cpu, RunAll(cpu, r, es[..|es| - 1]), es[|es| - 1])
  }

  // ----- the program without a debugger

  /** The state and the executed instructions when the threads take the turns of `sched` natively. */
  function NativeState<M>(cpu: Cpu<M>, orig: Code, m: M, sched: seq<nat>): M
    decreases |sched|
  {
    if sched == [] then m
    else
      var m1 := NativeState(cpu, orig, m, sched[..|sched| - 1]);
      var ti := sched[|sched| - 1];
      cpu.exec(m1, ti, Fetch(orig, cpu.pc(m1, ti)))
  }

  function NativeInsns<M>(cpu: Cpu<M>, orig: Code, m: M, sched: seq<nat>): seq<Insn>
    decreases |sched|
  {
    if sched == [] then []
    else
      var m1 := NativeState(cpu, orig, m, sched[..|sched| - 1]);
      var ti := sched[|sched| - 1];
      NativeInsns(cpu, orig, m, sched[..|sched| - 1]) + [Insn(ti, cpu.pc(m1, ti), Fetch(orig, cpu.pc(m1, ti)))]
  }

  function Schedule(trace: seq<Insn>): (sched: seq<nat>)
    ensures |sched| == |trace|
  {
    seq(|trace|, i requires 0 <= i < |trace| => trace[i].ti)
  }

  /** The run so far is a native run of the original program, stutters removed. */
  ghost predicate IsNative<M>(cpu: Cpu<M>, orig: Code, m: M, r: Run<M>) {
    && r.m == NativeState(cpu, orig, m, Schedule(r.trace))
    && r.trace == NativeInsns(cpu, orig, m, Schedule(r.trace))
  }

  // ----- transparency

  lemma ExecutedIsNative<M>(cpu: Cpu<M>, orig: Code, m: M, r: Run<M>, ti: nat)
    requires IsNative(cpu, orig, m, r)
    ensures var pc := cpu.pc(r.m, ti);
            var word := Fetch(orig, pc);
            IsNative(cpu, orig, m, r.(m := cpu.exec(r.m, ti, word), trace := r.trace + [Insn(ti, pc, word)]))
  {
    var pc := cpu.pc(r.m, ti);
    var trace' := r.trace + [Insn(ti, pc, Fetch(orig, pc))];
    assert Schedule(trace')[..|trace'| - 1] == Schedule(r.trace);
    assert Schedule(trace')[|trace'| - 1] == ti;
  }

  lemma DeliverKeeps<M>(cpu: Cpu<M>, r: Run<M>, port: nat, exc: Exc, orig: Code)
    requires Inv(r.s, orig)
    ensures Inv(Deliver(cpu, r, port, exc).s, orig)
    ensures Deliver(cpu, r, port, exc).m == r.m && Deliver(cpu, r, port, exc).trace == r.trace
  {
    var s1 := FocusOn(r.s, port);
    SetFocusKeeps(r.s, port, orig);
    var f := FirstFocused(s1.threads);
    if f < |s1.threads| { HandleKeeps(s1, f, exc, cpu.pc(r.m, f), orig); }
  }

  lemma TurnIsNative<M>(cpu: Cpu<M>, orig: Code, m: M, r: Run<M>, ti: nat)
    requires Inv(r.s, orig) && IsNative(cpu, orig, m, r) && ti < |r.s.threads|
    ensures Inv(Turn(cpu, r, ti).s, orig) && IsNative(cpu, orig, m, Turn(cpu, r, ti))
  {
    var pc := cpu.pc(r.m, ti);
    var word := Fetch(r.s.code, pc);
    var t := r.s.threads[ti];
    if word == BRK || (!t.regs.step && HwMatch(t, pc)) {
      DeliverKeeps(cpu, r, t.port, Break(pc), orig);
    } else {
      // what was fetched is no BRK, so it is the original word
      assert word == Fetch(orig, pc);
      ExecutedIsNative(cpu, orig, m, r, ti);
      var r1 := r.(m := cpu.exec(r.m, ti, word), trace := r.trace + [Insn(ti, pc, word)]);
      if t.regs.step {
        WithStepKeeps(r.s, ti, false, orig);
        DeliverKeeps(cpu, r1.(s := WithStep(r.s, ti, false)), t.port, Break(0), orig);
      }
    }
  }

  /** Commands execute nothing. */
  lemma SameIsNative<M>(cpu: Cpu<M>, orig: Code, m: M, r: Run<M>, r': Run<M>)
    requires IsNative(cpu, orig, m, r) && r'.m == r.m && r'.trace == r.trace
    ensures IsNative(cpu, orig, m, r')
  {
  }

  lemma ClearStepsKeeps(s: State, orig: Code)
    requires Inv(s, orig)
    ensures Inv(ClearSteps(s), orig)
  {
    ThreadNotesKeep(s, ClearSteps(s).threads, orig);
  }

  lemma TrapIsNative<M>(cpu: Cpu<M>, orig: Code, m: M, r: Run<M>, e: Event)
    requires Inv(r.s, orig) && IsNative(cpu, orig, m, r) && (e.Tick? || e.Raise?)
    ensures Inv(Next(cpu, r, e).s, orig) && IsNative(cpu, orig, m, Next(cpu, r, e))
  {
    hide Inv, IsNative, Turn, Deliver;
    match e
    case Tick(ti) => if r.running && ti < |r.s.threads| { TurnIsNative(cpu, orig, m, r, ti); }
    case Raise(port, exc) =>
      DeliverKeeps(cpu, r, port, exc, orig);
      SameIsNative(cpu, orig, m, r, Next(cpu, r, e));
  }

  lemma NextIsNative<M>(cpu: Cpu<M>, orig: Code, m: M, r: Run<M>, e: Event)
    requires Inv(r.s, orig) && IsNative(cpu, orig, m, r)
    ensures Inv(Next(cpu, r, e).s, orig) && IsNative(cpu, orig, m, Next(cpu, r, e))
  {
    hide Inv, IsNative, Turn, Deliver, AddBp, DeleteById, DeleteFrom, AddWp, DeleteWpById, SetFocus, Find, Prepare, ClearSteps;
    if e.Tick? || e.Raise? { TrapIsNative(cpu, orig, m, r, e); } else { SameIsNative(cpu, orig, m, r, Next(cpu, r, e)); }
    match e
    case Tick(ti) =>
    case Raise(port, exc) =>
    case SetBp(loc, thread) => AddBpKeeps(r.s, loc, false, false, thread, orig);
    case DeleteBp(id) => DeleteByIdKeeps(r.s, id, orig);
    case DeleteAllBps => DeleteFromKeeps(r.s, Every, 0, orig);
    case SetWp(loc, len, lsc, thread, readable) => AddWpKeeps(r.s, loc, len, lsc, thread, readable, orig);
    case DeleteWp(id) => DeleteWpByIdKeeps(r.s, id, orig);
    case Focus(port) => SetFocusKeeps(r.s, port, orig);
    case Continue => DeleteFromKeeps(r.s, Steppings, 0, orig);
    case Step(over, pc) =>
      var f := FirstFocused(r.s.threads);
      if f < |r.s.threads| { PrepareKeeps(r.s, f, over, pc, orig); }
    case Interrupt => ClearStepsKeeps(r.s, orig);
  }

  /** Transparency: for any number of threads, any interleaving, any exceptions and any user
      commands, the debuggee has executed exactly what it executes without a debugger, and the
      engine's invariant holds. */
  lemma {:induction false} Transparent<M>(cpu: Cpu<M>, orig: Code, r: Run<M>, es: seq<Event>)
    requires Inv(r.s, orig) && r.trace == []
    ensures Inv(RunAll(cpu, r, es).s, orig)
    ensures IsNative(cpu, orig, r.m, RunAll(cpu, r, es))
    decreases |es|
  {
    if es != [] {
      Transparent(cpu, orig, r, es[..|es| - 1]);
      NextIsNative(cpu, orig, r.m, RunAll(cpu, r, es[..|es| - 1]), es[|es| - 1]);
    }
  }

  // ----- exceptions that change no breakpoint

  predicate FocusMoved(ts: seq<Thread>, ts': seq<Thread>) {
    |ts'| == |ts| && forall i :: 0 <= i < |ts| ==> ts'[i] == ts[i].(focused := ts'[i].focused)
  }

  /** Some thread listed has the port. */
  predicate Listed(ts: seq<Thread>, port: nat) {
    exists i :: 0 <= i < |ts| && ts[i].port == port
  }

  predicate FocusedOn(ts: seq<Thread>, port: nat) {
    exists i :: 0 <= i < |ts| && ts[i].focused && ts[i].port == port && forall j :: 0 <= j < i ==> !ts[j].focused
  }

  predicate OneFocus(ts: seq<Thread>) {
    forall i, j :: 0 <= i < j < |ts| ==> !(ts[i].focused && ts[j].focused)
  }

  /** An exception that is no breakpoint, step, watchpoint or signal stops the debuggee and gives its
      thread the focus; nothing else changes. Without any focus it goes on. */
  lemma OtherStops<M>(cpu: Cpu<M>, r: Run<M>, port: nat)
    requires OneFocus(r.s.threads)
    ensures var r' := Next(cpu, r, Raise(port, Other));
            && r' == r.(s := r.s.(threads := r'.s.threads), running := r'.running)
            && FocusMoved(r.s.threads, r'.s.threads) && OneFocus(r'.s.threads)
            && (if Listed(r.s.threads, port) then FocusedOn(r'.s.threads, port) && !r'.running
                else r'.s.threads == r.s.threads && (r'.running <==> forall i :: 0 <= i < |r.s.threads| ==> !r.s.threads[i].focused))
  {
    FocusGiven(r.s, port);
    hide FocusOn;
  }

  /** A signal does the same, but the debuggee goes on exactly if the signal is not set to stop. */
  lemma SignalStopsIff<M>(cpu: Cpu<M>, r: Run<M>, port: nat, stop: bool)
    requires OneFocus(r.s.threads)
    ensures var r' := Next(cpu, r, Raise(port, Signal(stop)));
            && r' == r.(s := r.s.(threads := r'.s.threads), running := r'.running)
            && FocusMoved(r.s.threads, r'.s.threads) && OneFocus(r'.s.threads)
            && (if Listed(r.s.threads, port) then FocusedOn(r'.s.threads, port) && (r'.running <==> !stop)
                else r'.s.threads == r.s.threads && (r'.running <==> !stop || forall i :: 0 <= i < |r.s.threads| ==> !r.s.threads[i].focused))
  {
    FocusGiven(r.s, port);
    hide FocusOn;
  }

  lemma FocusSet(ts: seq<Thread>, port: nat)
    requires OneFocus(ts)
    ensures FocusMoved(ts, SetFocus(ts, port)) && OneFocus(SetFocus(ts, port))
  {
    var ts', prev, next := SetFocus(ts, port), FirstFocused(ts), FindPort(ts, port);
    forall i | 0 <= i < |ts| && next < |ts|
      ensures ts'[i] == ts[i].(focused := ts'[i].focused) && (ts'[i].focused ==> i == next)
    {
      if ts[i].focused { assert i == prev; }
    }
    hide SetFocus, FirstFocused;
  }

  lemma FocusGiven(s: State, port: nat)
    requires OneFocus(s.threads)
    ensures var s' := FocusOn(s, port);
            && s' == s.(threads := s'.threads) && FocusMoved(s.threads, s'.threads)
            && OneFocus(s'.threads)
            && if Listed(s.threads, port) then FocusedOn(s'.threads, port) && FirstFocused(s'.threads) < |s'.threads| else s' == s
  {
    FocusSet(s.threads, port);
    FocusFound(s, port);
    hide SetFocus, OneFocus, FocusedOn, Listed, FirstFocused;
  }

  lemma FocusFound(s: State, port: nat)
    requires OneFocus(s.threads)
    ensures var s' := FocusOn(s, port);
            if Listed(s.threads, port) then FocusedOn(s'.threads, port) && FirstFocused(s'.threads) < |s'.threads| else s' == s
  {
    var f, k, ts' := FirstFocused(s.threads), FindPort(s.threads, port), FocusOn(s, port).threads;
    if k < |s.threads| {
      if f < |s.threads| && s.threads[f].port == port { assert FocusedOn(s.threads, port); }
      else {
        SetFocusIff(s.threads, port);
        assert ts'[FirstFocused(ts')].port == port;
      }
    }
  }
}
