/** Rebuilding the thread list and adjusting the points in place, on a `Debuggee`. */
module ThreadUpdating {
  import opened Engine
  import opened EngineInvariants
  import opened Stops
  import opened Churn
  import opened DebuggeeObjects

  // ----- update_thread_list

  /** The flags saved before the old records are freed, by port. */
  datatype Saved = Saved(owner: nat, fl: Flags)

  predicate SavedFrom(infos: seq<Saved>, views: seq<Thread>) {
    |infos| == |views| && forall i :: 0 <= i < |views| ==> infos[i] == Saved(views[i].port, views[i].fl)
  }

  method SaveNotes(threads: seq<MachThread>, ghost views: seq<Thread>) returns (infos: seq<Saved>, focusPort: nat)
    requires AgreeThreads(threads, views)
    ensures SavedFrom(infos, views) && focusPort == FocusPort(views)
  {
    infos, focusPort := [], 0;
    for i := 0 to |threads|
      invariant SavedFrom(infos, views[..i]) && focusPort == FocusPort(views[..i])
    {
      assert views[..i + 1][..i] == views[..i];
      if threads[i].focused { focusPort := threads[i].port; }
      infos := infos + [Saved(threads[i].port, threads[i].fl)];
    }
    assert views[..|threads|] == views;
  }

  method RestoreFlags(infos: seq<Saved>, ghost views: seq<Thread>, port: nat) returns (fl: Flags)
    requires SavedFrom(infos, views)
    ensures fl == SavedFlags(views, port)
  {
    for j := 0 to |infos|
      invariant forall i :: 0 <= i < j ==> views[i].port != port
    {
      if infos[j].owner == port { return infos[j].fl; }
    }
    fl := NO_FLAGS;
  }

  /** The loops that arm a new thread with the points meant for all threads. */
  method ArmNewThread(d: Debuggee, regs: DebugRegs) returns (armed: DebugRegs)
    requires d.Valid()
    ensures armed == ArmNew(ArmNew(regs, Breaks, BpPoints(d.model.bps), |d.model.bps|), Watches, WpPoints(d.model.wps), |d.model.wps|)
  {
    armed := regs;
    for k := 0 to |d.breakpoints|
      invariant armed == ArmNew(regs, Breaks, BpPoints(d.model.bps), k)
    {
      var b := d.breakpoints[k];
      assert d.model.bps[k] == b.View();
      if b.target.All? { armed := armed.Put(Breaks, b.reg, b.slot); }
    }
    ghost var regs1 := armed;
    for k := 0 to |d.watchpoints|
      invariant armed == ArmNew(regs1, Watches, WpPoints(d.model.wps), k)
    {
      var w := d.watchpoints[k];
      assert d.model.wps[k] == w.View();
      if w.target.All? { armed := armed.Put(Watches, w.reg, w.slot); }
    }
  }

  method RebuildThread(d: Debuggee, infos: seq<Saved>, focusPort: nat, live: Live, i: nat) returns (t: MachThread)
    requires d.Valid() && SavedFrom(infos, d.model.threads) && focusPort == FocusPort(d.model.threads)
    ensures fresh(t) && t.View() == Rebuilt(d.model, live, i)
  {
    var fl := RestoreFlags(infos, d.model.threads, live.port);
    var regs := live.regs;
    if infos != [] && i >= |infos| { regs := ArmNewThread(d, regs); }
    t := new MachThread(live.port, live.tid, i + 1, regs);
    t.focused := infos != [] && live.port == focusPort;
    t.fl := fl;
  }

  lemma AgreeThreadsSnoc(xs: seq<MachThread>, views: seq<Thread>, x: MachThread)
    requires AgreeThreads(xs, views)
    ensures AgreeThreads(xs + [x], views + [x.View()])
  {
  }

  lemma UpdateAt(s: State, live: seq<Live>, i: nat)
    requires i < |live|
    ensures UpdateThreads(s, live).threads[i] == Rebuilt(s, live[i], i)
  {
    hide Rebuilt;
  }

  lemma NoneAgree()
    ensures Distinct<MachThread>([]) && AgreeThreads([], [])
  {
  }

  /** One more record. */
  method RebuildNext(d: Debuggee, infos: seq<Saved>, focusPort: nat, live: seq<Live>, rebuilt: seq<MachThread>, ghost ts: seq<Thread>)
    returns (t: MachThread)
    requires d.Valid() && SavedFrom(infos, d.model.threads) && focusPort == FocusPort(d.model.threads)
    requires ts == UpdateThreads(d.model, live).threads && |rebuilt| < |live| == |ts|
    requires Distinct(rebuilt) && AgreeThreads(rebuilt, ts[..|rebuilt|])
    ensures fresh(t) && Distinct(rebuilt + [t]) && AgreeThreads(rebuilt + [t], ts[..|rebuilt| + 1])
  {
    hide Debuggee.Valid, Distinct, AgreeThreads, Rebuilt, SavedFrom, FocusPort, UpdateThreads;
    var i := |rebuilt|;
    t := RebuildThread(d, infos, focusPort, live[i], i);
    DistinctSnoc(rebuilt, t);
    UpdateAt(d.model, live, i);
    assert ts[..i + 1] == ts[..i] + [ts[i]];
    AgreeThreadsSnoc(rebuilt, ts[..i], t);
  }

  method RebuildThreads(d: Debuggee, live: seq<Live>) returns (rebuilt: seq<MachThread>)
    requires d.Valid()
    ensures fresh(rebuilt) && Distinct(rebuilt) && AgreeThreads(rebuilt, UpdateThreads(d.model, live).threads)
  {
    d.ValidAgrees();
    hide Debuggee.Valid;
    var infos, focusPort := SaveNotes(d.threads, d.model.threads);
    ghost var ts := UpdateThreads(d.model, live).threads;
    UpdateLength(d.model, live);
    NoneAgree();
    hide Distinct, AgreeThreads, SavedFrom, FocusPort, UpdateThreads, Debuggee.Agrees;
    rebuilt := [];
    assert ts[..0] == [];
    for i := 0 to |live|
      invariant |rebuilt| == i && fresh(rebuilt) && Distinct(rebuilt) && AgreeThreads(rebuilt, ts[..i])
    {
      var t := RebuildNext(d, infos, focusPort, live, rebuilt, ts);
      rebuilt := rebuilt + [t];
    }
    assert ts[..|live|] == ts;
  }

  lemma UpdateShaped(s: State, live: seq<Live>)
    requires Shaped(s)
    ensures Shaped(UpdateThreads(s, live))
  {
  }

  method UpdateThreadList(d: Debuggee, live: seq<Live>)
    requires d.Valid()
    modifies d
    ensures d.Valid() && d.breakpoints == old(d.breakpoints) && d.watchpoints == old(d.watchpoints)
    ensures d.model == UpdateThreads(old(d.model), live) && fresh(d.threads)
  {
    d.ValidAgrees();
    UpdateShaped(d.model, live);
    hide Debuggee.Valid, Shaped, Distinct, AgreeBps, AgreeWps, AgreeThreads;
    d.threads := RebuildThreads(d, live);
    d.Install(UpdateThreads(d.model, live));
  }

  // ----- the adjust loops

  method FindThreadFromTid(threads: seq<MachThread>, ghost views: seq<Thread>, tid: nat) returns (t: MachThread?, ghost k: nat)
    requires AgreeThreads(threads, views)
    ensures k == FindTid(views, tid)
    ensures if k < |threads| then t == threads[k] else t == null
  {
    var i := 0;
    while i < |threads|
      invariant 0 <= i <= |threads|
      invariant forall j :: 0 <= j < i ==> views[j].tid != tid
    {
      if threads[i].tid == tid { return threads[i], i; }
      i := i + 1;
    }
    t, k := null, |threads|;
  }

  /** fetch_bp_or_wp_threads. */
  method FetchThreads(threads: seq<MachThread>, ghost views: seq<Thread>, id: int, tid: nat)
    returns (found: MachThread?, correct: MachThread?, ghost f: nat, ghost c: nat)
    requires AgreeThreads(threads, views)
    ensures f == FoundThread(views, id, tid) && c == FindTid(views, tid)
    ensures if f < |threads| then found == threads[f] else found == null
    ensures if c < |threads| then correct == threads[c] else correct == null
  {
    found := FindThreadFromId(threads, views, id);
    correct, c := FindThreadFromTid(threads, views, tid);
    f := FindId(views, id);
    if found == null { found, f := correct, c; }
  }

  datatype Finding = Fine | Wrong(found: MachThread, correct: MachThread) | Gone

  /** The decision of the adjust loops, on the records. */
  method JudgeThreads(threads: seq<MachThread>, ghost views: seq<Thread>, id: int, tid: nat) returns (v: Finding, ghost f: nat, ghost c: nat)
    requires AgreeThreads(threads, views)
    ensures match Judge(views, id, tid)
            case Keep => v == Fine
            case Delete => v == Gone
            case Correct(found, correct) => f == found && c == correct && v == Wrong(threads[f], threads[c])
  {
    var found, correct;
    found, correct, f, c := FetchThreads(threads, views, id, tid);
    if found == null || correct == null { return Gone, f, c; }
    assert views[f] == found.View();
    v := if found.tid != tid || found.id != id then Wrong(found, correct) else Fine;
  }

  method ReaimThreads(found: MachThread, correct: MachThread, b: Bank, r: int, slot: Slot,
                      threads: seq<MachThread>, ghost views: seq<Thread>, ghost f: nat, ghost c: nat)
    requires Distinct(threads) && AgreeThreads(threads, views)
    requires f < |threads| && c < |threads| && threads[f] == found && threads[c] == correct
    modifies found`regs, correct`regs
    ensures AgreeThreads(threads, Reaim(views, b, r, slot, f, c))
  {
    found.regs := found.regs.Put(b, r, Slot(0, 0));
    found.regs := found.regs.(step := false);
    correct.WriteSlot(b, r, slot);
  }

  method SetBpTarget(bp: Breakpoint, target: Target, ghost breakpoints: seq<Breakpoint>, ghost views: seq<Bp>, ghost k: nat)
    requires Distinct(breakpoints) && AgreeBps(breakpoints, views) && k < |breakpoints| && breakpoints[k] == bp
    modifies bp`target
    ensures AgreeBps(breakpoints, views[k := views[k].(target := target)])
  {
    bp.target := target;
  }

  method SetWpTarget(wp: Watchpoint, target: Target, ghost watchpoints: seq<Watchpoint>, ghost views: seq<Wp>, ghost k: nat)
    requires Distinct(watchpoints) && AgreeWps(watchpoints, views) && k < |watchpoints| && watchpoints[k] == wp
    modifies wp`target
    ensures AgreeWps(watchpoints, views[k := views[k].(target := target)])
  {
    wp.target := target;
  }

  lemma RetargetShaped(s: State, k: nat, f: nat, c: nat)
    requires Shaped(s) && f < |s.threads| && c < |s.threads|
    ensures k < |s.bps| ==> Shaped(RetargetBp(s, k, f, c))
    ensures k < |s.wps| ==> Shaped(RetargetWp(s, k, f, c))
  {
  }

  method RetargetBreakpoint(d: Debuggee, bp: Breakpoint, found: MachThread, correct: MachThread, ghost k: nat, ghost f: nat, ghost c: nat)
    requires d.Valid() && k < |d.breakpoints| && d.breakpoints[k] == bp
    requires f < |d.threads| && c < |d.threads| && d.threads[f] == found && d.threads[c] == correct
    modifies d`model, bp`target, found`regs, correct`regs
    ensures d.Valid() && d.model == RetargetBp(old(d.model), k, f, c)
  {
    d.BpAt(k);
    d.ThreadAt(c);
    d.ValidAgrees();
    d.Lengths();
    RetargetShaped(d.model, k, f, c);
    hide Debuggee.Valid, Shaped, Distinct, AgreeBps, AgreeWps, AgreeThreads, Reaim;
    ReaimThreads(found, correct, Breaks, bp.reg, bp.slot, d.threads, d.model.threads, f, c);
    SetBpTarget(bp, Only(correct.id, correct.tid), d.breakpoints, d.model.bps, k);
    d.Install(RetargetBp(d.model, k, f, c));
  }

  /** A breakpoint meant for one thread. */
  method AdjustTargetedBreakpoint(d: Debuggee, bp: Breakpoint, ghost k: nat) returns (gone: bool)
    requires d.Valid() && k < |d.breakpoints| && d.breakpoints[k] == bp && bp.target.Only? && bp.hw
    modifies d, d.threads, bp
    ensures d.Valid() && d.watchpoints == old(d.watchpoints) && d.threads == old(d.threads)
    ensures d.breakpoints == if gone then RemoveAt(old(d.breakpoints), k) else old(d.breakpoints)
    ensures d.model == AdjustBp(old(d.model), k)
  {
    hide Judge, RetargetBp, RetargetWp, DeleteAt, DeleteWpAt, Shaped, Distinct;
    d.BpAt(k);
    var v, f, c := JudgeThreads(d.threads, d.model.threads, bp.target.id, bp.target.tid);
    gone := v.Gone?;
    match v
    case Fine =>
    case Gone => d.DeleteBp(bp, k);
    case Wrong(found, correct) => RetargetBreakpoint(d, bp, found, correct, k, f, c);
  }

  method AdjustOneBreakpoint(d: Debuggee, bp: Breakpoint, ghost k: nat) returns (gone: bool)
    requires d.Valid() && k < |d.breakpoints| && d.breakpoints[k] == bp
    modifies d, d.threads, bp
    ensures d.Valid() && d.watchpoints == old(d.watchpoints) && d.threads == old(d.threads)
    ensures d.breakpoints == if gone then RemoveAt(old(d.breakpoints), k) else old(d.breakpoints)
    ensures d.model == AdjustBp(old(d.model), k)
  {
    hide Debuggee.Valid, Judge, RetargetBp, RetargetWp, DeleteAt, DeleteWpAt;
    d.BpAt(k);
    if bp.target.All? || !bp.hw { gone := false; }
    else { gone := AdjustTargetedBreakpoint(d, bp, k); }
  }

  method AdjustRoundBreakpoint(d: Debuggee, bp: Breakpoint, ghost k: nat) returns (gone: bool)
    requires d.Valid() && k < |d.breakpoints| && d.breakpoints[k] == bp
    modifies d, d.threads, bp
    ensures d.Valid() && d.watchpoints == old(d.watchpoints) && d.threads == old(d.threads)
    ensures d.breakpoints == if gone then RemoveAt(old(d.breakpoints), k) else old(d.breakpoints)
    ensures AdjustBps(d.model, if gone then k else k + 1) == AdjustBps(old(d.model), k)
  {
    hide Debuggee.Valid, AdjustBp;
    d.Lengths();
    gone := AdjustOneBreakpoint(d, bp, k);
    d.Lengths();
  }

  method AdjustBreakpoints(d: Debuggee)
    requires d.Valid()
    modifies d, d.threads, d.breakpoints
    ensures d.Valid() && d.watchpoints == old(d.watchpoints) && d.threads == old(d.threads)
    ensures d.model == AdjustBps(old(d.model), 0)
  {
    hide Debuggee.Valid, AdjustBps;
    d.Lengths();
    ghost var s := AdjustBps(d.model, 0);
    var walk := d.breakpoints;
    ghost var k := 0;
    for i := 0 to |walk|
      invariant d.Valid() && d.watchpoints == old(d.watchpoints) && d.threads == old(d.threads)
      invariant 0 <= k <= |d.breakpoints| == |d.model.bps| && d.breakpoints[k..] == walk[i..]
      invariant AdjustBps(d.model, k) == s
    {
      WalkOn(d.breakpoints, k, walk, i);
      var gone := AdjustRoundBreakpoint(d, walk[i], k);
      if !gone { k := k + 1; }
      d.Lengths();
    }
    assert |d.breakpoints[k..]| == 0;
    AdjustedBpsEnd(d.model);
  }

  method RetargetWatchpoint(d: Debuggee, wp: Watchpoint, found: MachThread, correct: MachThread, ghost k: nat, ghost f: nat, ghost c: nat)
    requires d.Valid() && k < |d.watchpoints| && d.watchpoints[k] == wp
    requires f < |d.threads| && c < |d.threads| && d.threads[f] == found && d.threads[c] == correct
    modifies d`model, wp`target, found`regs, correct`regs
    ensures d.Valid() && d.model == RetargetWp(old(d.model), k, f, c)
  {
    d.WpAt(k);
    d.ThreadAt(c);
    d.ValidAgrees();
    d.Lengths();
    RetargetShaped(d.model, k, f, c);
    hide Debuggee.Valid, Shaped, Distinct, AgreeBps, AgreeWps, AgreeThreads, Reaim;
    ReaimThreads(found, correct, Watches, wp.reg, wp.slot, d.threads, d.model.threads, f, c);
    SetWpTarget(wp, Only(correct.id, correct.tid), d.watchpoints, d.model.wps, k);
    d.Install(RetargetWp(d.model, k, f, c));
  }

  /** A watchpoint meant for one thread. */
  method AdjustTargetedWatchpoint(d: Debuggee, wp: Watchpoint, ghost k: nat) returns (gone: bool)
    requires d.Valid() && k < |d.watchpoints| && d.watchpoints[k] == wp && wp.target.Only?
    modifies d, d.threads, wp
    ensures d.Valid() && d.breakpoints == old(d.breakpoints) && d.threads == old(d.threads)
    ensures d.watchpoints == if gone then RemoveAt(old(d.watchpoints), k) else old(d.watchpoints)
    ensures d.model == AdjustWp(old(d.model), k)
  {
    hide Judge, RetargetBp, RetargetWp, DeleteAt, DeleteWpAt, Shaped, Distinct;
    d.WpAt(k);
    var v, f, c := JudgeThreads(d.threads, d.model.threads, wp.target.id, wp.target.tid);
    gone := v.Gone?;
    match v
    case Fine =>
    case Gone => d.UnlinkWatchpoint(wp, k);
    case Wrong(found, correct) => RetargetWatchpoint(d, wp, found, correct, k, f, c);
  }

  method AdjustOneWatchpoint(d: Debuggee, wp: Watchpoint, ghost k: nat) returns (gone: bool)
    requires d.Valid() && k < |d.watchpoints| && d.watchpoints[k] == wp
    modifies d, d.threads, wp
    ensures d.Valid() && d.breakpoints == old(d.breakpoints) && d.threads == old(d.threads)
    ensures d.watchpoints == if gone then RemoveAt(old(d.watchpoints), k) else old(d.watchpoints)
    ensures d.model == AdjustWp(old(d.model), k)
  {
    hide Debuggee.Valid, Judge, RetargetBp, RetargetWp, DeleteAt, DeleteWpAt;
    d.WpAt(k);
    if wp.target.All? { gone := false; }
    else { gone := AdjustTargetedWatchpoint(d, wp, k); }
  }

  method AdjustRoundWatchpoint(d: Debuggee, wp: Watchpoint, ghost k: nat) returns (gone: bool)
    requires d.Valid() && k < |d.watchpoints| && d.watchpoints[k] == wp
    modifies d, d.threads, wp
    ensures d.Valid() && d.breakpoints == old(d.breakpoints) && d.threads == old(d.threads)
    ensures d.watchpoints == if gone then RemoveAt(old(d.watchpoints), k) else old(d.watchpoints)
    ensures AdjustWps(d.model, if gone then k else k + 1) == AdjustWps(old(d.model), k)
  {
    hide Debuggee.Valid, AdjustWp;
    d.Lengths();
    gone := AdjustOneWatchpoint(d, wp, k);
    d.Lengths();
  }

  method AdjustWatchpoints(d: Debuggee)
    requires d.Valid()
    modifies d, d.threads, d.watchpoints
    ensures d.Valid() && d.breakpoints == old(d.breakpoints) && d.threads == old(d.threads)
    ensures d.model == AdjustWps(old(d.model), 0)
  {
    hide Debuggee.Valid, AdjustWps;
    d.Lengths();
    ghost var s := AdjustWps(d.model, 0);
    var walk := d.watchpoints;
    ghost var k := 0;
    for i := 0 to |walk|
      invariant d.Valid() && d.breakpoints == old(d.breakpoints) && d.threads == old(d.threads)
      invariant 0 <= k <= |d.watchpoints| == |d.model.wps| && d.watchpoints[k..] == walk[i..]
      invariant AdjustWps(d.model, k) == s
    {
      WalkOn(d.watchpoints, k, walk, i);
      var gone := AdjustRoundWatchpoint(d, walk[i], k);
      if !gone { k := k + 1; }
      d.Lengths();
    }
    assert |d.watchpoints[k..]| == 0;
    AdjustedWpsEnd(d.model);
  }

  lemma AdjustedBpsEnd(s: State)
    ensures AdjustBps(s, |s.bps|) == s
  {
  }

  lemma AdjustedWpsEnd(s: State)
    ensures AdjustWps(s, |s.wps|) == s
  {
  }

  // ----- ops_threadupdate

  /** The first thread gets the focus if none has it. */
  method KeepFocus(d: Debuggee)
    requires d.Valid()
    modifies d`model, d.threads
    ensures d.Valid() && d.model == old(d.model).(threads := Refocus(old(d.model).threads))
  {
    var focused, k := d.FocusedThread();
    if focused == null && |d.threads| > 0 {
      assert d.model.threads[0] == d.threads[0].View();
      d.FocusThread(d.threads[0].port);
    }
  }

  method UpdateAll(d: Debuggee, live: seq<Live>)
    requires d.Valid()
    modifies d, d.breakpoints, d.watchpoints
    ensures d.Valid() && d.model == ThreadUpdate(old(d.model), live)
  {
    hide UpdateThreads, Refocus, AdjustBps, AdjustWps;
    UpdateThreadList(d, live);
    KeepFocus(d);
    AdjustBreakpoints(d);
    AdjustWatchpoints(d);
  }
}
