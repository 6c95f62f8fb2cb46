/** Attaching and detaching: the start of every run and what is left at its end. */
module Detach {
  import opened Engine
  import opened EngineInvariants
  import opened Transparency
  import Exactness
  import Ids

  /** A debuggee as it is attached to: no points, no armed register. */
  function Attached(threads: seq<Thread>, code: Code, hwBps: nat, hwWps: nat): State {
    State([], [], threads, code, 1, 1, 0, 0, hwBps, hwWps)
  }

  lemma AttachedOk(threads: seq<Thread>, code: Code, hwBps: nat, hwWps: nat)
    requires Numbered(threads) && hwBps <= NUM_SLOTS && hwWps <= NUM_SLOTS
    requires NoneArmed(threads, Breaks) && NoneArmed(threads, Watches)
    ensures Inv(Attached(threads, code, hwBps, hwWps), code)
    ensures Exactness.Exact(Attached(threads, code, hwBps, hwWps), code) && Ids.IdsOk(Attached(threads, code, hwBps, hwWps))
  {
    var s := Attached(threads, code, hwBps, hwWps);
    assert BpPoints(s.bps) == [] && WpPoints(s.wps) == [];
    forall b: Bank, i, r | 0 <= i < |threads| && 0 <= r < NUM_SLOTS ensures SlotOk([], threads[i], r, threads[i].regs.Get(b)[r]) { }
  }

  /** watchpoint_delete_all: the element after a deleted one comes next. */
  function DeleteWps(s: State): State
    decreases |s.wps|
  {
    if s.wps == [] then s else DeleteWps(DeleteWpAt(s, 0))
  }

  lemma {:induction false} DeleteWpsKeeps(s: State, orig: Code)
    requires Inv(s, orig)
    ensures Inv(DeleteWps(s), orig) && DeleteWps(s).wps == [] && DeleteWps(s).code == s.code && DeleteWps(s).bps == s.bps
    decreases |s.wps|
  {
    hide Inv;
    if s.wps != [] {
      DeleteWpAtKeeps(s, 0, orig);
      DeleteWpsKeeps(DeleteWpAt(s, 0), orig);
    }
  }

  /** The part of ops_detach that concerns the debuggee: all points go, every step bit is cleared. */
  function DetachFrom(s: State): State {
    ClearSteps(DeleteWps(DeleteFrom(s, Every, 0)))
  }

  /** Detaching leaves no trace: after any run from an attached debuggee its code is the original, no
      debug register of any thread is armed and no step is pending. */
  lemma DetachLeavesNoTrace<M>(cpu: Cpu<M>, r: Run<M>, code: Code, es: seq<Event>)
    requires r.trace == [] && Inv(r.s, code)
    ensures var s := DetachFrom(RunAll(cpu, r, es).s);
      && s.code == code && s.bps == [] && s.wps == []
      && NoneArmed(s.threads, Breaks) && NoneArmed(s.threads, Watches)
      && forall i :: 0 <= i < |s.threads| ==> !s.threads[i].regs.step
  {
    hide RunAll, DeleteWps, DeleteFrom;
    Transparent(cpu, code, r, es);
    var s := RunAll(cpu, r, es).s;
    DeleteAllRestores(s, code);
    DeleteFromKeeps(s, Every, 0, code);
    var s1 := DeleteFrom(s, Every, 0);
    DeleteWpsKeeps(s1, code);
    var s2 := DeleteWps(s1);
    NoPointsNoneArmed(s2.threads, Breaks, BpPoints(s2.bps));
    NoPointsNoneArmed(s2.threads, Watches, WpPoints(s2.wps));
    ClearedStayUnarmed(s2, Breaks);
    ClearedStayUnarmed(s2, Watches);
  }

  lemma ClearedStayUnarmed(s: State, b: Bank)
    requires NoneArmed(s.threads, b)
    ensures NoneArmed(ClearSteps(s).threads, b)
  {
    var ts := ClearSteps(s).threads;
    forall i, r | 0 <= i < |ts| && 0 <= r < NUM_SLOTS ensures ts[i].regs.Get(b)[r].ctl == 0 {
      assert ts[i].regs.Get(b) == s.threads[i].regs.Get(b);
    }
  }
}
