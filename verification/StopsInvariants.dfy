/** Stops and step set-up keep the engine's invariant. */
module StopsInvariants {
  import opened Engine
  import opened EngineInvariants
  import opened Stops

  /** Stop flags, focus and step bits are outside the invariant. */
  lemma ThreadNotesKeep(s: State, ts: seq<Thread>, orig: Code)
    requires Inv(s, orig) && |ts| == |s.threads|
    requires forall i :: 0 <= i < |ts| ==> ts[i].id == s.threads[i].id
    requires forall i :: 0 <= i < |ts| ==> ts[i].regs.breaks == s.threads[i].regs.breaks && ts[i].regs.watches == s.threads[i].regs.watches
    ensures Inv(s.(threads := ts), orig)
  {
    BankFrame(s.threads, ts, Breaks, BpPoints(s.bps));
    BankFrame(s.threads, ts, Watches, WpPoints(s.wps));
  }

  lemma WithFlagsKeeps(s: State, ti: nat, fl: Flags, orig: Code)
    requires Inv(s, orig) && ti < |s.threads|
    ensures Inv(WithFlags(s, ti, fl), orig)
  {
    ThreadNotesKeep(s, WithFlags(s, ti, fl).threads, orig);
  }

  lemma WithStepKeeps(s: State, ti: nat, on: bool, orig: Code)
    requires Inv(s, orig) && ti < |s.threads|
    ensures Inv(WithStep(s, ti, on), orig)
  {
    ThreadNotesKeep(s, WithStep(s, ti, on).threads, orig);
  }

  lemma SetFocusKeeps(s: State, port: nat, orig: Code)
    requires Inv(s, orig)
    ensures Inv(s.(threads := SetFocus(s.threads, port)), orig)
  {
    ThreadNotesKeep(s, SetFocus(s.threads, port), orig);
  }

  lemma NormalHitKeeps(s: State, ti: nat, k: nat, orig: Code)
    requires Inv(s, orig) && ti < |s.threads| && k < |s.bps| && s.bps[k].Normal()
    ensures Inv(NormalHit(s, ti, k), orig)
  {
    hide Inv, HitAt, SetStateById;
    var b := s.bps[k];
    var s1 := HitAt(s, k);
    HitAtKeeps(s, k, orig);
    var fl := s1.threads[ti].fl;
    if b.hw { WithFlagsKeeps(s1, ti, fl.(lastBpId := b.id), orig); }
    else {
      WithFlagsKeeps(s1, ti, fl.(justHitSw := true), orig);
      SetStateByIdKeeps(WithFlags(s1, ti, fl.(justHitSw := true)), b.id, true, orig);
      var s2 := SetStateById(WithFlags(s1, ti, fl.(justHitSw := true)), b.id, true);
      WithFlagsKeeps(s2, ti, s2.threads[ti].fl.(lastBpId := b.id), orig);
    }
  }

  lemma SteppingHitKeeps(s: State, ti: nat, k: nat, orig: Code)
    requires Inv(s, orig) && ti < |s.threads| && k < |s.bps|
    ensures Inv(SteppingHit(s, ti, k), orig)
  {
    HitAtKeeps(s, k, orig);
    var s0 := HitAt(s, k);
    WithFlagsKeeps(s0, ti, s0.threads[ti].fl.(justHitSs := true, setTempSs := false), orig);
  }

  lemma ListedHitKeeps(s: State, ti: nat, addr: nat, orig: Code)
    requires Inv(s, orig) && ti < |s.threads|
    ensures Inv(ListedHit(s, ti, addr).s, orig)
  {
    var k := First(s.bps, NormalAt(addr));
    if k < |s.bps| { NormalHitKeeps(s, ti, k, orig); }
  }

  lemma HandleHitKeeps(s: State, ti: nat, addr: nat, orig: Code)
    requires Inv(s, orig) && ti < |s.threads|
    ensures Inv(HandleHit(s, ti, addr).s, orig)
  {
    var step := First(s.bps, SteppingAt(addr));
    if step < |s.bps| {
      SteppingHitKeeps(s, ti, step, orig);
      ListedHitKeeps(SteppingHit(s, ti, step), ti, addr, orig);
    } else {
      ListedHitKeeps(s, ti, addr, orig);
    }
  }

  lemma HandleSingleStepKeeps(s: State, ti: nat, orig: Code)
    requires Inv(s, orig) && ti < |s.threads|
    ensures Inv(HandleSingleStep(s, ti).s, orig)
  {
    hide Inv, SetStates, SetStateById;
    var s1 := SetStates(s, Normals, false, 0);
    SetStatesKeeps(s, Normals, false, 0, orig);
    var fl := s1.threads[ti].fl;
    if fl.justHitBp {
      var s2 := s1;
      if fl.justHitSw {
        var e := SetStateById(s1, fl.lastBpId, false);
        SetStateByIdKeeps(s1, fl.lastBpId, false, orig);
        WithFlagsKeeps(e, ti, e.threads[ti].fl.(justHitSw := false), orig);
        s2 := WithFlags(e, ti, e.threads[ti].fl.(justHitSw := false));
      }
      WithFlagsKeeps(s2, ti, HandleSingleStep(s, ti).s.threads[ti].fl, orig);
    }
  }

  lemma HandleKeeps(s: State, ti: nat, exc: Exc, pc: nat, orig: Code)
    requires Inv(s, orig) && ti < |s.threads|
    ensures Inv(Handle(s, ti, exc, pc).s, orig)
  {
    hide Inv, BreakStop, WatchStop, StepStop;
    match exc
    case Signal(_) =>
    case Other =>
    case WatchHit(addr) =>
      var fl := s.threads[ti].fl.(justHitWp := true, lastWpLoc := addr);
      WithFlagsKeeps(s, ti, fl, orig);
      WithStepKeeps(WithFlags(s, ti, fl), ti, true, orig);
    case Break(subcode) =>
      if subcode != 0 { BreakStopKeeps(s, ti, subcode, orig); }
      else if s.threads[ti].fl.justHitWp { WatchStopKeeps(s, ti, orig); }
      else { StepStopKeeps(s, ti, pc, orig); }
  }

  lemma BreakStopKeeps(s: State, ti: nat, addr: nat, orig: Code)
    requires Inv(s, orig) && ti < |s.threads|
    ensures Inv(BreakStop(s, ti, addr).s, orig)
  {
    hide Inv, HandleHit;
    var fl := s.threads[ti].fl.(justHitBp := true);
    WithFlagsKeeps(s, ti, fl, orig);
    HandleHitKeeps(WithFlags(s, ti, fl), ti, addr, orig);
    WithStepKeeps(HandleHit(WithFlags(s, ti, fl), ti, addr).s, ti, true, orig);
  }

  lemma HitWpKeeps(s: State, k: nat, orig: Code)
    requires Inv(s, orig) && k < |s.wps|
    ensures Inv(HitWpAt(s, k), orig) && HitWpAt(s, k).threads == s.threads
  {
    var s1 := HitWpAt(s, k);
    assert WpPoints(s1.wps) == WpPoints(s.wps);
    hide BankOk, CodeOk;
  }

  lemma HandleWatchKeeps(s: State, ti: nat, orig: Code)
    requires Inv(s, orig) && ti < |s.threads|
    ensures Inv(HandleWatch(s, ti).s, orig)
  {
    hide Inv, FirstWpAt, HitWpAt, WithFlags;
    var fl := s.threads[ti].fl;
    var k := FirstWpAt(s.wps, fl.lastWpLoc - fl.lastWpLoc % 8);
    if k < |s.wps| {
      HitWpKeeps(s, k, orig);
      WithFlagsKeeps(HitWpAt(s, k), ti, fl.(lastWpLoc := 0), orig);
    }
  }

  lemma WatchStopKeeps(s: State, ti: nat, orig: Code)
    requires Inv(s, orig) && ti < |s.threads|
    ensures Inv(WatchStop(s, ti).s, orig)
  {
    hide Inv, HandleWatch;
    HandleWatchKeeps(s, ti, orig);
    var o := HandleWatch(s, ti);
    WithFlagsKeeps(o.s, ti, o.s.threads[ti].fl.(justHitWp := false), orig);
  }

  lemma StepStopKeeps(s: State, ti: nat, pc: nat, orig: Code)
    requires Inv(s, orig) && ti < |s.threads|
    ensures Inv(StepStop(s, ti, pc).s, orig)
  {
    hide Inv, HitAt, HandleSingleStep, First;
    var k := First(s.bps, NormalAt(pc));
    var s1 := if s.threads[ti].fl.isStepping && k < |s.bps| then HitAt(s, k) else s;
    if s.threads[ti].fl.isStepping && k < |s.bps| { HitAtKeeps(s, k, orig); }
    HandleSingleStepKeeps(s1, ti, orig);
    var o := HandleSingleStep(s1, ti);
    WithFlagsKeeps(o.s, ti, o.s.threads[ti].fl.(stepKind := StepNone, isStepping := false), orig);
  }

  lemma PrepareKeeps(s: State, ti: nat, over: bool, pc: nat, orig: Code)
    requires Inv(s, orig) && ti < |s.threads|
    ensures Inv(Prepare(s, ti, over, pc), orig)
  {
    hide Inv, SetStates, AddBp, AtCall;
    var s1 := SetStates(s, NonSteppings, true, 0);
    SetStatesKeeps(s, NonSteppings, true, 0, orig);
    var fl := s1.threads[ti].fl.(stepKind := if over then StepOver else StepInto);
    var s2 := WithFlags(s1, ti, fl);
    WithFlagsKeeps(s1, ti, fl, orig);
    if over && AtCall(s2, pc) {
      if !s2.threads[ti].fl.setTempSs {
        AddBpKeeps(s2, pc + 4, true, true, s2.threads[ti].id, orig);
        var s3 := AddBp(s2, pc + 4, true, true, s2.threads[ti].id);
        WithFlagsKeeps(s3, ti, s3.threads[ti].fl.(setTempSs := true), orig);
      }
    } else {
      var s3 := WithStep(s2, ti, true);
      WithStepKeeps(s2, ti, true, orig);
      WithFlagsKeeps(s3, ti, s3.threads[ti].fl.(isStepping := true), orig);
    }
  }
}
