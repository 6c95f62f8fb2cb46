/** What setting a point does to the state, said without the functions that build it. */
module NewPoints {
  import opened Engine
  import opened WatchBytes

  /** No listed hardware breakpoint owns the register. */
  predicate BpFree(bps: seq<Bp>, r: int) {
    forall j :: 0 <= j < |bps| && bps[j].hw ==> bps[j].reg != r
  }

  predicate WpFree(wps: seq<Wp>, r: int) {
    forall j :: 0 <= j < |wps| ==> wps[j].reg != r
  }

  /** The user's thread argument names all threads or a listed one. */
  predicate Names(ts: seq<Thread>, thread: int) {
    thread == -1 || exists i :: 0 <= i < |ts| && ts[i].id == thread
  }

  /** The point is for all threads, or for the first listed one with that ID. */
  predicate MeantFor(ts: seq<Thread>, thread: int, g: Target) {
    if thread == -1 then g == All
    else exists i :: 0 <= i < |ts| && ts[i].id == thread && g == Only(thread, ts[i].tid) && forall j :: 0 <= j < i ==> ts[j].id != thread
  }

  predicate Concerns(g: Target, t: Thread) {
    g == All || (g.Only? && g.id == t.id)
  }

  /** Register `r` of the bank holds `slot` on the threads the point is for; all else is as it was. */
  predicate Written(ts: seq<Thread>, ts': seq<Thread>, g: Target, b: Bank, r: nat, slot: Slot)
    requires r < NUM_SLOTS
  {
    |ts'| == |ts| && forall i :: 0 <= i < |ts| ==>
      ts'[i] == if Concerns(g, ts[i]) then ts[i].(regs := if b.Breaks? then ts[i].regs.(breaks := ts[i].regs.breaks[r := slot])
                                                           else ts[i].regs.(watches := ts[i].regs.watches[r := slot])) else ts[i]
  }

  lemma OwnedIff(bps: seq<Bp>, r: nat)
    ensures Owned(BpRegs(bps), r) <==> !BpFree(bps, r)
  {
    var regs := BpRegs(bps);
    if !BpFree(bps, r) {
      var j :| 0 <= j < |bps| && bps[j].hw && bps[j].reg == r;
      assert regs[j] == r;
    }
  }

  lemma WpOwnedIff(wps: seq<Wp>, r: nat)
    ensures Owned(WpRegs(wps), r) <==> !WpFree(wps, r)
  {
    var regs := WpRegs(wps);
    if !WpFree(wps, r) {
      var j :| 0 <= j < |wps| && wps[j].reg == r;
      assert regs[j] == r;
    }
  }

  lemma ArmAllWritten(ts: seq<Thread>, g: Target, b: Bank, r: nat, slot: Slot)
    requires r < NUM_SLOTS
    ensures Written(ts, ArmAll(ts, g, b, r, slot), g, b, r, slot)
  {
  }

  lemma TargetMeant(ts: seq<Thread>, thread: int)
    ensures KnownThread(ts, thread) <==> Names(ts, thread)
    ensures KnownThread(ts, thread) ==> MeantFor(ts, thread, TargetFor(ts, thread))
  {
  }

  /** The breakpoint's fields that do not depend on where it is kept. */
  predicate Fields(s: State, b: Bp, loc: nat, temporary: bool, stepping: bool, thread: int) {
    && b.id == s.nextBp && b.location == loc && b.hits == 0 && !b.disabled && b.temporary == temporary && b.stepping == stepping
    && MeantFor(s.threads, thread, b.target)
    && (if exists j :: 0 <= j < |s.bps| && s.bps[j].location == loc
        then exists j :: 0 <= j < |s.bps| && s.bps[j].location == loc && b.orig == s.bps[j].orig && forall i :: 0 <= i < j ==> s.bps[i].location != loc
        else b.orig == if loc in s.code then s.code[loc] else 0)
  }

  /** A hardware breakpoint if and only if some register is owned by no listed one: then in the least such
      register, armed on the threads it is for, the code left alone. Else a software breakpoint: BRK at
      its address, if that is mapped, and the registers left alone. */
  predicate Placed(s: State, s': State, b: Bp) {
    && (b.hw <==> exists r :: 0 <= r < s.hwBps && BpFree(s.bps, r))
    && if b.hw then
         && 0 <= b.reg < s.hwBps && BpFree(s.bps, b.reg) && (forall r :: 0 <= r < b.reg ==> !BpFree(s.bps, r))
         && b.slot.val == b.location - b.location % 4 && Enabled(b.slot.ctl)
         && b.reg < NUM_SLOTS && Written(s.threads, s'.threads, b.target, Breaks, b.reg, b.slot) && s'.code == s.code
       else
         && b.reg == -1 && s'.threads == s.threads
         && s'.code == if b.location in s.code then s.code[b.location := 0xd420_0000] else s.code
  }

  /** Enabled, in user mode, on all four bytes of the instruction, as an unlinked address match. */
  predicate Enabled(ctl: bv64) {
    ctl & 1 == 1 && (ctl >> 1) & 3 == 2 && (ctl >> 5) & 0xf == 0xf && ctl & 0xffff_ffff_ffff_fe18 == 0
  }

  lemma BreakControlEnabled()
    ensures Enabled(BREAK_CONTROL)
  {
  }

  /** A breakpoint has been set: appended, and nothing but what it says changed. */
  predicate Appended(s: State, s': State, loc: nat, temporary: bool, stepping: bool, thread: int) {
    && |s'.bps| == |s.bps| + 1 && s'.bps[..|s.bps|] == s.bps
    && Fields(s, s'.bps[|s.bps|], loc, temporary, stepping, thread) && Placed(s, s', s'.bps[|s.bps|])
    && s' == s.(bps := s'.bps, threads := s'.threads, code := s'.code, numBps := s.numBps + 1, nextBp := s.nextBp + if temporary then 0 else 1)
  }

  /** Setting a breakpoint for a known thread. */
  lemma AddBpBuilds(s: State, loc: nat, temporary: bool, stepping: bool, thread: int)
    requires s.hwBps <= NUM_SLOTS
    ensures if Names(s.threads, thread) then Appended(s, AddBp(s, loc, temporary, stepping, thread), loc, temporary, stepping, thread)
      else AddBp(s, loc, temporary, stepping, thread) == s
  {
    TargetMeant(s.threads, thread);
    if KnownThread(s.threads, thread) {
      MadeFields(s, loc, temporary, stepping, thread);
      AddedPlaced(s, loc, temporary, stepping, thread);
      hide MakeBp, Fields, Placed, ArmAll;
    }
  }

  lemma AddedPlaced(s: State, loc: nat, temporary: bool, stepping: bool, thread: int)
    requires s.hwBps <= NUM_SLOTS && KnownThread(s.threads, thread)
    ensures Placed(s, AddBp(s, loc, temporary, stepping, thread), MakeBp(s, loc, temporary, stepping, thread))
  {
    var b := MakeBp(s, loc, temporary, stepping, thread);
    MadeChooses(s, loc, temporary, stepping, thread);
    hide MakeBp, ArmAll, Enabled, BpFree, Written;
    if b.hw { ArmAllWritten(s.threads, b.target, Breaks, b.reg, b.slot); }
  }

  lemma MadeFields(s: State, loc: nat, temporary: bool, stepping: bool, thread: int)
    requires KnownThread(s.threads, thread)
    ensures Fields(s, MakeBp(s, loc, temporary, stepping, thread), loc, temporary, stepping, thread)
  {
    TargetMeant(s.threads, thread);
    hide FreeReg, MeantFor;
    var dup := First(s.bps, At(loc));
    assert dup < |s.bps| <==> exists j :: 0 <= j < |s.bps| && s.bps[j].location == loc;
  }

  lemma MadeChooses(s: State, loc: nat, temporary: bool, stepping: bool, thread: int)
    requires KnownThread(s.threads, thread)
    ensures var b := MakeBp(s, loc, temporary, stepping, thread);
      && (b.hw <==> exists r :: 0 <= r < s.hwBps && BpFree(s.bps, r))
      && b.location == loc
      && if b.hw then
           && 0 <= b.reg < s.hwBps && BpFree(s.bps, b.reg) && (forall r :: 0 <= r < b.reg ==> !BpFree(s.bps, r))
           && b.slot.val == loc - loc % 4 && Enabled(b.slot.ctl)
         else b.reg == -1
  {
    BreakControlEnabled();
    forall r: nat ensures Owned(BpRegs(s.bps), r) <==> !BpFree(s.bps, r) { OwnedIff(s.bps, r); }
    hide Owned, BpFree, First, Enabled, Find;
  }

  // ----- watchpoints

  /** The number as a word. */
  function Small(a: nat): bv64 {
    if a == 0 then 0 else if a == 1 then 1 else if a == 2 then 2 else if a == 3 then 3 else if a == 4 then 4
    else if a == 5 then 5 else if a == 6 then 6 else if a == 7 then 7 else 8
  }

  lemma SmallIs(a: nat)
    requires a <= 8
    ensures a as bv64 == Small(a)
  {
    if a == 0 {} else if a == 1 {} else if a == 2 {} else if a == 3 {} else if a == 4 {} else if a == 5 {} else if a == 6 {} else if a == 7 {}
  }

  lemma SmallOrder(low: nat, len: nat, i: nat)
    requires low < 8 && len <= 8 && i < 8
    ensures Small(i) < 8 && (Small(low) <= Small(i) < Small(low) + Small(len) <==> low <= i < low + len)
  {
    if len == 0 {} else if len == 1 {} else if len == 2 {} else if len == 3 {} else if len == 4 {}
    else if len == 5 {} else if len == 6 {} else if len == 7 {} else {}
  }

  /** The control word selects exactly those of the eight bytes from `aligned` on that are watched, and is
      enabled in user mode for the accesses asked for. */
  predicate WatchesBytes(ctl: bv64, aligned: nat, loc: nat, len: nat, lsc: nat) {
    && (forall i :: 0 <= i < 8 ==> (Selects(ctl, Small(i)) <==> loc <= aligned + i < loc + len))
    && ctl & 1 == 1 && (ctl >> 1) & 3 == 2 && (ctl >> 3) & 3 == Small(lsc)
  }

  lemma WatchSlotSelects(loc: nat, len: nat, lsc: nat)
    requires len <= 8 && lsc < 4
    ensures WatchSlot(loc, len, lsc).val == loc - loc % 8 && WatchesBytes(WatchSlot(loc, len, lsc).ctl, loc - loc % 8, loc, len, lsc)
  {
    var low := loc % 8;
    SmallIs(low);
    SmallIs(len);
    SmallIs(lsc);
    LowSmall(low, len, lsc);
    assert WatchSlot(loc, len, lsc) == Slot(WatchControl(Small(low), Small(len), Small(lsc)), loc - low);
    hide WatchSlot, WatchControl, Selects, Small;
    SlotSelects(loc - low, low, len, lsc);
  }

  lemma SlotSelects(aligned: nat, low: nat, len: nat, lsc: nat)
    requires low < 8 && len <= 8 && lsc < 4 && Small(low) < 8 && Small(len) <= 8 && Small(lsc) < 4
    ensures WatchesBytes(WatchControl(Small(low), Small(len), Small(lsc)), aligned, aligned + low, len, lsc)
  {
    var ctl := WatchControl(Small(low), Small(len), Small(lsc));
    forall i | 0 <= i < 8 ensures Selects(ctl, Small(i)) <==> aligned + low <= aligned + i < aligned + low + len {
      SelectsOne(low, len, lsc, i);
    }
    ControlFields(Small(low), Small(len), Small(lsc));
    hide WatchControl, Selects, Small;
  }

  lemma SelectsOne(low: nat, len: nat, lsc: nat, i: nat)
    requires low < 8 && len <= 8 && lsc < 4 && i < 8 && Small(low) < 8 && Small(len) <= 8 && Small(lsc) < 4
    ensures Selects(WatchControl(Small(low), Small(len), Small(lsc)), Small(i)) <==> low <= i < low + len
  {
    SmallOrder(low, len, i);
    SelectsBytes(Small(low), Small(len), Small(lsc), Small(i));
    hide WatchControl, Selects, Small;
  }

  lemma LowSmall(low: nat, len: nat, lsc: nat)
    requires low < 8 && len <= 8 && lsc < 4
    ensures Small(low) < 8 && Small(len) <= 8 && Small(lsc) < 4
  {
  }

  lemma ControlFields(low: bv64, len: bv64, lsc: bv64)
    requires low < 8 && len <= 8 && lsc < 4
    ensures var ctl := WatchControl(low, len, lsc); ctl & 1 == 1 && (ctl >> 1) & 3 == 2 && (ctl >> 3) & 3 == lsc
  {
  }

  /** A watchpoint is set if its length is from 1 to 8, its thread known, its data readable and a register
      free: then in the least free one, armed on the threads it is for. Else nothing changes. */
  lemma AddWpBuilds(s: State, loc: nat, len: nat, lsc: nat, thread: int, readable: bool)
    requires s.hwWps <= NUM_SLOTS && lsc < 4
    ensures var s' := AddWp(s, loc, len, lsc, thread, readable);
      if 1 <= len <= 8 && Names(s.threads, thread) && readable && exists r :: 0 <= r < s.hwWps && WpFree(s.wps, r) then
        && |s'.wps| == |s.wps| + 1 && s'.wps[..|s.wps|] == s.wps
        && var w := s'.wps[|s.wps|];
           && w.id == s.nextWp && w.location == loc && w.aligned == loc - loc % 8 && w.hits == 0 && MeantFor(s.threads, thread, w.target)
           && 0 <= w.reg < s.hwWps && WpFree(s.wps, w.reg) && (forall r :: 0 <= r < w.reg ==> !WpFree(s.wps, r))
           && w.slot.val == loc - loc % 8 && WatchesBytes(w.slot.ctl, loc - loc % 8, loc, len, lsc)
           && Written(s.threads, s'.threads, w.target, Watches, w.reg, w.slot)
           && s' == s.(wps := s'.wps, threads := s'.threads, numWps := s.numWps + 1, nextWp := s.nextWp + 1)
      else s' == s
  {
    TargetMeant(s.threads, thread);
    forall r: nat ensures Owned(WpRegs(s.wps), r) <==> !WpFree(s.wps, r) { WpOwnedIff(s.wps, r); }
    hide Owned, WpFree, Find, MeantFor, ArmAll, WatchSlot, WatchesBytes;
    if GoodWatch(s, len, lsc, thread, readable) {
      var w := MakeWp(s, loc, len, lsc, thread, readable);
      WatchSlotSelects(loc, len, lsc);
      ArmAllWritten(s.threads, w.target, Watches, w.reg, w.slot);
    }
  }
}
