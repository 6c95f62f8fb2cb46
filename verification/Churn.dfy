/** Threads come and go (`thread.c`, `dbgops.c`): the thread list is rebuilt from the live
    threads, renumbered, and points meant for one thread are re-aimed at it or deleted. */
module Churn {
  import opened Engine
  import opened EngineInvariants
  import opened Stops

  /** A live thread as the kernel knows it, with the debug registers it really has. */
  datatype Live = Live(port: nat, tid: nat, regs: DebugRegs)

  // ----- update_thread_list

  /** The saved notes of the thread that had this port, or none. */
  function SavedFlags(ts: seq<Thread>, port: nat): Flags {
    var k := FindPort(ts, port);
    if k < |ts| then ts[k].fl else NO_FLAGS
  }

  /** The port of the last focused thread, 0 if there is none. */
  function FocusPort(ts: seq<Thread>): nat {
    if ts == [] then 0
    else if ts[|ts| - 1].focused then ts[|ts| - 1].port
    else FocusPort(ts[..|ts| - 1])
  }

  /** The first `k` all-thread points, written into a new thread's registers in list order,
      whether enabled or not; a point without a register is written nowhere. */
  function ArmNew(regs: DebugRegs, b: Bank, pts: seq<Point>, k: nat): DebugRegs
    requires k <= |pts|
  {
    if k == 0 then regs
    else
      var regs1 := ArmNew(regs, b, pts, k - 1);
      if pts[k - 1].target.All? then regs1.Put(b, pts[k - 1].reg, pts[k - 1].slot) else regs1
  }

  /** A thread counts as new by its position alone, and in an empty list none does. */
  predicate TakenForNew(ts: seq<Thread>, i: nat) {
    ts != [] && i >= |ts|
  }

  /** The i-th thread of the rebuilt list. */
  function Rebuilt(s: State, live: Live, i: nat): Thread {
    var regs := if TakenForNew(s.threads, i)
                then ArmNew(ArmNew(live.regs, Breaks, BpPoints(s.bps), |s.bps|), Watches, WpPoints(s.wps), |s.wps|)
                else live.regs;
    Thread(live.port, live.tid, i + 1, s.threads != [] && live.port == FocusPort(s.threads), regs, SavedFlags(s.threads, live.port))
  }

  function UpdateThreads(s: State, live: seq<Live>): State {
    s.(threads := seq(|live|, i requires 0 <= i < |live| => Rebuilt(s, live[i], i)))
  }

  lemma UpdateLength(s: State, live: seq<Live>)
    ensures |UpdateThreads(s, live).threads| == |live| && UpdateThreads(s, live).bps == s.bps && UpdateThreads(s, live).wps == s.wps
  {
  }

  /** A rebuilt thread: numbered by its place; its notes are those of the first old thread with its port,
      none for an unknown port; it has the focus if the last focused old thread had its port. */
  lemma RebuiltIs(s: State, l: Live, i: nat)
    ensures var t, ts := Rebuilt(s, l, i), s.threads;
      && t.port == l.port && t.tid == l.tid && t.id == i + 1 && t.regs.step == l.regs.step
      && (forall j :: 0 <= j < |ts| && ts[j].port == l.port && (forall k :: 0 <= k < j ==> ts[k].port != l.port) ==> t.fl == ts[j].fl)
      && ((forall j :: 0 <= j < |ts| ==> ts[j].port != l.port) ==> t.fl == NO_FLAGS)
      && (forall j :: 0 <= j < |ts| && ts[j].focused && (forall k :: j < k < |ts| ==> !ts[k].focused) ==> (t.focused <==> l.port == ts[j].port))
      && ((forall j :: 0 <= j < |ts| ==> !ts[j].focused) ==> (t.focused <==> ts != [] && l.port == 0))
  {
    FocusPortIs(s.threads);
    ArmNewSteps(l.regs, Breaks, BpPoints(s.bps), |s.bps|);
    ArmNewSteps(ArmNew(l.regs, Breaks, BpPoints(s.bps), |s.bps|), Watches, WpPoints(s.wps), |s.wps|);
  }

  lemma {:induction false} FocusPortIs(ts: seq<Thread>)
    ensures forall j :: 0 <= j < |ts| && ts[j].focused && (forall k :: j < k < |ts| ==> !ts[k].focused) ==> FocusPort(ts) == ts[j].port
    ensures (forall j :: 0 <= j < |ts| ==> !ts[j].focused) ==> FocusPort(ts) == 0
  {
    if ts != [] { FocusPortIs(ts[..|ts| - 1]); }
  }

  lemma {:induction false} ArmNewSteps(regs: DebugRegs, b: Bank, pts: seq<Point>, k: nat)
    requires k <= |pts|
    ensures ArmNew(regs, b, pts, k).step == regs.step
  {
    if k > 0 { ArmNewSteps(regs, b, pts, k - 1); }
  }

  // ----- adjust_breakpoints and adjust_watchpoints

  function FindTid(ts: seq<Thread>, tid: nat): nat {
    Find(ts, ByTid(tid))
  }

  /** fetch_bp_or_wp_threads: the thread that has the point's ID, or else its TID. */
  function FoundThread(ts: seq<Thread>, id: int, tid: nat): (k: nat)
    ensures k <= |ts|
  {
    if FindId(ts, id) < |ts| then FindId(ts, id) else FindTid(ts, tid)
  }

  /** clear_wrong_thread_debug_state then set_correct_thread_debug_state. Clearing takes the
      step bit along. */
  function Reaim(ts: seq<Thread>, b: Bank, r: int, slot: Slot, found: nat, correct: nat): (ts': seq<Thread>)
    requires found < |ts| && correct < |ts|
    ensures |ts'| == |ts|
  {
    var cleared := Arm(ts[found], b, r, Slot(0, 0));
    var ts1 := ts[found := cleared.(regs := cleared.regs.(step := false))];
    ts1[correct := Arm(ts1[correct], b, r, slot)]
  }

  datatype Verdict = Keep | Correct(found: nat, correct: nat) | Delete

  /** What the adjust loops decide about a point meant for one thread. */
  function Judge(ts: seq<Thread>, id: int, tid: nat): (v: Verdict)
    ensures v.Correct? ==> v.found < |ts| && v.correct < |ts|
  {
    var found := FoundThread(ts, id, tid);
    var correct := FindTid(ts, tid);
    if found < |ts| && correct < |ts| then
      if ts[found].tid != tid || ts[found].id != id then Correct(found, correct) else Keep
    else Delete
  }

  /** One round of adjust_breakpoints, on the k-th breakpoint. */
  function AdjustBp(s: State, k: nat): (s': State)
    requires k < |s.bps|
    ensures |s.bps| - 1 <= |s'.bps| <= |s.bps|
  {
    var b := s.bps[k];
    if b.target.All? || !b.hw then s
    else match Judge(s.threads, b.target.id, b.target.tid)
      case Keep => s
      case Delete => DeleteAt(s, k)
      case Correct(found, correct) => RetargetBp(s, k, found, correct)
  }

  function RetargetBp(s: State, k: nat, found: nat, correct: nat): (s': State)
    requires k < |s.bps| && found < |s.threads| && correct < |s.threads|
    ensures |s'.bps| == |s.bps|
  {
    var b := s.bps[k];
    var t := s.threads[correct];
    s.(threads := Reaim(s.threads, Breaks, b.reg, b.slot, found, correct), bps := s.bps[k := b.(target := Only(t.id, t.tid))])
  }

  /** adjust_breakpoints from the k-th breakpoint on; a deleted one is followed by its successor. */
  function AdjustBps(s: State, k: nat): (s': State)
    requires k <= |s.bps|
    decreases |s.bps| - k
  {
    if k == |s.bps| then s
    else
      var s1 := AdjustBp(s, k);
      AdjustBps(s1, if |s1.bps| < |s.bps| then k else k + 1)
  }

  function AdjustWp(s: State, k: nat): (s': State)
    requires k < |s.wps|
    ensures |s.wps| - 1 <= |s'.wps| <= |s.wps|
  {
    var w := s.wps[k];
    if w.target.All? then s
    else match Judge(s.threads, w.target.id, w.target.tid)
      case Keep => s
      case Delete => DeleteWpAt(s, k)
      case Correct(found, correct) => RetargetWp(s, k, found, correct)
  }

  function RetargetWp(s: State, k: nat, found: nat, correct: nat): (s': State)
    requires k < |s.wps| && found < |s.threads| && correct < |s.threads|
    ensures |s'.wps| == |s.wps|
  {
    var w := s.wps[k];
    var t := s.threads[correct];
    s.(threads := Reaim(s.threads, Watches, w.reg, w.slot, found, correct), wps := s.wps[k := w.(target := Only(t.id, t.tid))])
  }

  function AdjustWps(s: State, k: nat): (s': State)
    requires k <= |s.wps|
    decreases |s.wps| - k
  {
    if k == |s.wps| then s
    else
      var s1 := AdjustWp(s, k);
      AdjustWps(s1, if |s1.wps| < |s.wps| then k else k + 1)
  }

  // ----- ops_threadupdate

  /** Without a focused thread the first one gets the focus. */
  function Refocus(ts: seq<Thread>): (ts': seq<Thread>)
    ensures |ts'| == |ts|
  {
    if ts != [] && FirstFocused(ts) == |ts| then SetFocus(ts, ts[0].port) else ts
  }

  /** The list between rebuilding and adjusting. */
  function Relisted(s: State, live: seq<Live>): State {
    var s0 := UpdateThreads(s, live);
    s0.(threads := Refocus(s0.threads))
  }

  function ThreadUpdate(s: State, live: seq<Live>): State {
    AdjustWps(AdjustBps(Relisted(s, live), 0), 0)
  }

  predicate OnlyFocusMoved(ts: seq<Thread>, ts': seq<Thread>) {
    |ts'| == |ts| && forall i :: 0 <= i < |ts| ==> ts'[i] == ts[i].(focused := ts'[i].focused)
  }

  lemma RefocusMoves(ts: seq<Thread>)
    ensures OnlyFocusMoved(ts, Refocus(ts))
    ensures ts != [] ==> FirstFocused(Refocus(ts)) < |ts|
  {
    if ts != [] && FirstFocused(ts) == |ts| {
      assert FindPort(ts, ts[0].port) == 0;
      assert Refocus(ts)[0].focused;
    }
  }

  // ----- before an update

  predicate UniqueTids(ts: seq<Thread>) {
    forall i, j :: 0 <= i < j < |ts| ==> ts[i].tid != ts[j].tid
  }

  /** A point for one thread carries that live thread's ID and TID. */
  predicate Aimed(ts: seq<Thread>, g: Target) {
    g.Only? ==> exists i :: 0 <= i < |ts| && ts[i].id == g.id && ts[i].tid == g.tid
  }

  predicate AllAimed(ts: seq<Thread>, pts: seq<Point>) {
    forall k :: 0 <= k < |pts| && pts[k].reg != -1 ==> Aimed(ts, pts[k].target)
  }

  predicate AimsAt(g: Target, tid: nat) {
    g.All? || g.tid == tid
  }

  /** For points that are aimed, ID and TID say the same. */
  lemma AimedSame(ts: seq<Thread>, g: Target, i: nat)
    requires Numbered(ts) && UniqueTids(ts) && Aimed(ts, g) && i < |ts|
    ensures Targets(g, ts[i]) <==> AimsAt(g, ts[i].tid)
  {
    if g.Only? {
      var j :| 0 <= j < |ts| && ts[j].id == g.id && ts[j].tid == g.tid;
      assert ts[i].id == ts[j].id <==> i == j;
    }
  }

  /** The debugger has seen the thread. */
  predicate Seen(ts: seq<Thread>, l: Live) {
    FindPort(ts, l.port) < |ts|
  }

  /** The kernel's registers are the ones last written, and a new thread has none armed. */
  predicate KernelAgrees(ts: seq<Thread>, live: seq<Live>) {
    && (forall i, j :: 0 <= i < j < |live| ==> live[i].port != live[j].port && live[i].tid != live[j].tid)
    && (forall i, j :: 0 <= i < |live| && 0 <= j < |ts| ==> (live[i].port == ts[j].port <==> live[i].tid == ts[j].tid))
    && (forall i, j :: 0 <= i < |live| && 0 <= j < |ts| && live[i].port == ts[j].port ==>
          live[i].regs.breaks == ts[j].regs.breaks && live[i].regs.watches == ts[j].regs.watches)
    && (forall i :: 0 <= i < |live| && !Seen(ts, live[i]) ==>
          forall r :: 0 <= r < NUM_SLOTS ==> live[i].regs.breaks[r].ctl == 0 && live[i].regs.watches[r].ctl == 0)
  }

  ghost predicate Churnable(s: State, live: seq<Live>) {
    && UniqueTids(s.threads) && KernelAgrees(s.threads, live)
    && AllAimed(s.threads, BpPoints(s.bps)) && AllAimed(s.threads, WpPoints(s.wps))
  }

  // ----- registers by owner

  /** The register of `p` holds its word, or no control word. */
  predicate Holds(slot: Slot, p: Point, on: bool) {
    if on then slot == p.slot else slot.ctl == 0
  }

  predicate InBank(pts: seq<Point>) {
    forall k :: 0 <= k < |pts| ==> -1 <= pts[k].reg < NUM_SLOTS
  }

  predicate Unowned(pts: seq<Point>, r: nat) {
    forall k :: 0 <= k < |pts| ==> pts[k].reg != r
  }

  lemma HoldsFromBank(ts: seq<Thread>, b: Bank, pts: seq<Point>, i: nat, k: nat)
    requires BankOk(ts, b, pts) && i < |ts| && k < |pts| && pts[k].reg != -1
    ensures Holds(ts[i].regs.Get(b)[pts[k].reg], pts[k], pts[k].armed && Targets(pts[k].target, ts[i]))
  {
    var r := pts[k].reg;
    assert SlotOk(pts, ts[i], r, ts[i].regs.Get(b)[r]);
    assert forall j :: 0 <= j < |pts| && pts[j].reg == r ==> j == k;
  }

  lemma UnownedInBank(ts: seq<Thread>, b: Bank, pts: seq<Point>, i: nat, r: nat)
    requires BankOk(ts, b, pts) && i < |ts| && r < NUM_SLOTS && Unowned(pts, r)
    ensures ts[i].regs.Get(b)[r].ctl == 0
  {
    assert SlotOk(pts, ts[i], r, ts[i].regs.Get(b)[r]);
  }

  lemma BankFromHolds(ts: seq<Thread>, b: Bank, pts: seq<Point>)
    requires DistinctRegs(pts) && InBank(pts)
    requires forall i, k :: 0 <= i < |ts| && 0 <= k < |pts| && pts[k].reg != -1 ==>
               Holds(ts[i].regs.Get(b)[pts[k].reg], pts[k], pts[k].armed && Targets(pts[k].target, ts[i]))
    requires forall i, r :: 0 <= i < |ts| && 0 <= r < NUM_SLOTS && Unowned(pts, r) ==> ts[i].regs.Get(b)[r].ctl == 0
    ensures BankOk(ts, b, pts)
  {
    forall i, r | 0 <= i < |ts| && 0 <= r < NUM_SLOTS ensures SlotOk(pts, ts[i], r, ts[i].regs.Get(b)[r]) {
      if !Unowned(pts, r) {
        var k :| 0 <= k < |pts| && pts[k].reg == r;
        assert forall j :: 0 <= j < |pts| && pts[j].reg == r ==> j == k;
        assert Holds(ts[i].regs.Get(b)[pts[k].reg], pts[k], pts[k].armed && Targets(pts[k].target, ts[i]));
      }
    }
  }

  // ----- after the rebuild

  lemma {:induction false} ArmNewEffect(regs: DebugRegs, b: Bank, pts: seq<Point>, k: nat, r: nat)
    requires k <= |pts| && DistinctRegs(pts) && r < NUM_SLOTS
    ensures forall j :: 0 <= j < k && pts[j].reg == r && pts[j].target.All? ==> ArmNew(regs, b, pts, k).Get(b)[r] == pts[j].slot
    ensures (forall j :: 0 <= j < k ==> pts[j].reg != r || pts[j].target.Only?) ==> ArmNew(regs, b, pts, k).Get(b)[r] == regs.Get(b)[r]
    ensures forall c :: c != b ==> ArmNew(regs, b, pts, k).Get(c) == regs.Get(c)
  {
    if k > 0 { ArmNewEffect(regs, b, pts, k - 1, r); }
  }

  function PointsOf(s: State, b: Bank): seq<Point> {
    if b.Breaks? then BpPoints(s.bps) else WpPoints(s.wps)
  }

  /** A register is the kernel's, or at a new position that of a point for all threads. */
  predicate SlotAfter(pts: seq<Point>, r: nat, was: Slot, slot: Slot, isNew: bool) {
    if isNew then
      && (forall j :: 0 <= j < |pts| && pts[j].reg == r && pts[j].target.All? ==> slot == pts[j].slot)
      && ((forall j :: 0 <= j < |pts| ==> pts[j].reg != r || pts[j].target.Only?) ==> slot == was)
    else slot == was
  }

  lemma RebuiltSlot(s: State, l: Live, b: Bank, i: nat, r: nat)
    requires r < NUM_SLOTS && DistinctRegs(BpPoints(s.bps)) && DistinctRegs(WpPoints(s.wps))
    ensures SlotAfter(PointsOf(s, b), r, l.regs.Get(b)[r], Rebuilt(s, l, i).regs.Get(b)[r], TakenForNew(s.threads, i))
  {
    var regs1 := ArmNew(l.regs, Breaks, BpPoints(s.bps), |s.bps|);
    ArmNewEffect(l.regs, Breaks, BpPoints(s.bps), |s.bps|, r);
    ArmNewEffect(regs1, Watches, WpPoints(s.wps), |s.wps|, r);
  }

  /** Whether the word of `p` stands on the i-th thread of the rebuilt list. */
  predicate StandsRebuilt(ts: seq<Thread>, l: Live, p: Point, i: nat) {
    if p.target.All? then TakenForNew(ts, i) || (p.armed && Seen(ts, l)) else p.armed && p.target.tid == l.tid
  }

  ghost predicate Rebuildable(s: State, live: seq<Live>, b: Bank) {
    && Numbered(s.threads) && UniqueTids(s.threads) && KernelAgrees(s.threads, live)
    && AllAimed(s.threads, PointsOf(s, b)) && BankOk(s.threads, b, PointsOf(s, b))
    && DistinctRegs(BpPoints(s.bps)) && DistinctRegs(WpPoints(s.wps))
  }

  /** What the kernel has in the register of a point. */
  lemma LiveHolds(s: State, live: seq<Live>, b: Bank, i: nat, k: nat)
    requires Rebuildable(s, live, b) && i < |live| && k < |PointsOf(s, b)| && PointsOf(s, b)[k].reg != -1
    ensures var p := PointsOf(s, b)[k]; Holds(live[i].regs.Get(b)[p.reg], p, p.armed && AimsAt(p.target, live[i].tid) && Seen(s.threads, live[i]))
    ensures var p := PointsOf(s, b)[k]; p.target.Only? && p.target.tid == live[i].tid ==> Seen(s.threads, live[i])
  {
    var pts := PointsOf(s, b);
    var j := FindPort(s.threads, live[i].port);
    assert Aimed(s.threads, pts[k].target);
    if j < |s.threads| {
      HoldsFromBank(s.threads, b, pts, j, k);
      AimedSame(s.threads, pts[k].target, j);
      assert live[i].tid == s.threads[j].tid && live[i].regs.Get(b) == s.threads[j].regs.Get(b);
    } else {
      UnseenTid(s.threads, live, i);
    }
  }

  lemma UnseenTid(ts: seq<Thread>, live: seq<Live>, i: nat)
    requires KernelAgrees(ts, live) && i < |live| && !Seen(ts, live[i])
    ensures forall j :: 0 <= j < |ts| ==> ts[j].tid != live[i].tid
    ensures forall b: Bank, r :: 0 <= r < NUM_SLOTS ==> live[i].regs.Get(b)[r].ctl == 0
  {
  }

  lemma RebuiltHolds(s: State, live: seq<Live>, b: Bank, i: nat, k: nat)
    requires Rebuildable(s, live, b) && i < |live| && k < |PointsOf(s, b)| && PointsOf(s, b)[k].reg != -1
    ensures var p := PointsOf(s, b)[k]; Holds(Rebuilt(s, live[i], i).regs.Get(b)[p.reg], p, StandsRebuilt(s.threads, live[i], p, i))
  {
    var pts := PointsOf(s, b);
    RebuiltSlot(s, live[i], b, i, pts[k].reg);
    LiveHolds(s, live, b, i, k);
    assert forall j :: 0 <= j < |pts| && pts[j].reg == pts[k].reg ==> j == k;
    hide Rebuildable, PointsOf, Rebuilt, Seen;
  }

  lemma RebuiltUnowned(s: State, live: seq<Live>, b: Bank, i: nat, r: nat)
    requires Rebuildable(s, live, b) && i < |live| && r < NUM_SLOTS && Unowned(PointsOf(s, b), r)
    ensures Rebuilt(s, live[i], i).regs.Get(b)[r].ctl == 0
  {
    var j := FindPort(s.threads, live[i].port);
    RebuiltSlot(s, live[i], b, i, r);
    if j < |s.threads| {
      UnownedInBank(s.threads, b, PointsOf(s, b), j, r);
      assert live[i].regs.Get(b) == s.threads[j].regs.Get(b);
    } else {
      UnseenTid(s.threads, live, i);
    }
    hide Rebuildable, PointsOf, Rebuilt, Find;
  }

  /** An enabled all-thread breakpoint reaches a thread the debugger has not seen exactly when
      that thread's position is new, too. */
  lemma NewThreadArmedIff(s: State, live: seq<Live>, k: nat, i: nat)
    requires s.threads != [] && KernelAgrees(s.threads, live) && i < |live| && !Seen(s.threads, live[i])
    requires DistinctRegs(BpPoints(s.bps)) && DistinctRegs(WpPoints(s.wps))
    requires k < |s.bps| && s.bps[k].hw && 0 <= s.bps[k].reg < NUM_SLOTS && s.bps[k].target.All? && s.bps[k].slot.ctl != 0
    ensures Rebuilt(s, live[i], i).regs.breaks[s.bps[k].reg] == s.bps[k].slot <==> i >= |s.threads|
  {
    RebuiltSlot(s, live[i], Breaks, i, s.bps[k].reg);
    assert BpPoints(s.bps)[k].reg == s.bps[k].reg;
    hide Rebuilt;
  }

  // ----- the lists after the adjust loops

  predicate SameThreads(ts: seq<Thread>, ts': seq<Thread>) {
    |ts'| == |ts| && forall i :: 0 <= i < |ts| ==> ts'[i].id == ts[i].id && ts'[i].tid == ts[i].tid
  }

  /** What an adjustment makes of a point meant for one thread: none, or its target. */
  function AdjustedTarget(ts: seq<Thread>, id: int, tid: nat): (g: seq<Target>)
    ensures |g| <= 1
  {
    match Judge(ts, id, tid)
    case Keep => [Only(id, tid)]
    case Delete => []
    case Correct(found, correct) => [Only(ts[correct].id, ts[correct].tid)]
  }

  /** The point goes with its thread, and otherwise gets its thread's current ID. */
  lemma AdjustedTargetByTid(ts: seq<Thread>, id: int, tid: nat)
    requires Numbered(ts) && UniqueTids(ts)
    ensures AdjustedTarget(ts, id, tid) == if FindTid(ts, tid) == |ts| then [] else [Only(ts[FindTid(ts, tid)].id, tid)]
  {
    JudgeByTid(ts, id, tid);
  }

  /** What an adjustment makes of one breakpoint; only hardware points for one thread change. */
  function AdjustedBp(ts: seq<Thread>, b: Bp): (one: seq<Bp>)
    ensures |one| <= 1
  {
    if b.target.All? || !b.hw then [b]
    else
      var g := AdjustedTarget(ts, b.target.id, b.target.tid);
      if g == [] then [] else [b.(target := g[0])]
  }

  function AdjustedBps(ts: seq<Thread>, bps: seq<Bp>): seq<Bp> {
    if bps == [] then [] else AdjustedBp(ts, bps[0]) + AdjustedBps(ts, bps[1..])
  }

  function AdjustedWp(ts: seq<Thread>, w: Wp): (one: seq<Wp>)
    ensures |one| <= 1
  {
    if w.target.All? then [w]
    else
      var g := AdjustedTarget(ts, w.target.id, w.target.tid);
      if g == [] then [] else [w.(target := g[0])]
  }

  function AdjustedWps(ts: seq<Thread>, wps: seq<Wp>): seq<Wp> {
    if wps == [] then [] else AdjustedWp(ts, wps[0]) + AdjustedWps(ts, wps[1..])
  }

  lemma Assoc<T>(a: seq<T>, b: seq<T>, c: seq<T>)
    ensures (a + b) + c == a + (b + c)
  {
  }

  lemma Splice<T>(xs: seq<T>, k: nat, one: seq<T>, xs': seq<T>)
    requires k < |xs| && xs' == xs[..k] + one + xs[k + 1..]
    ensures xs'[..k + |one|] == xs[..k] + one && xs'[k + |one|..] == xs[k + 1..] && xs[k..][1..] == xs[k + 1..]
  {
  }

  /** Searches by ID and by TID do not see registers. */
  lemma {:induction false} FindSame(ts: seq<Thread>, ts': seq<Thread>, q: Sought)
    requires SameThreads(ts, ts') && (q.ById? || q.ByTid?)
    ensures Find(ts', q) == Find(ts, q)
  {
    if ts != [] { FindSame(ts[1..], ts'[1..], q); }
  }

  lemma AdjustedTargetSame(ts: seq<Thread>, ts': seq<Thread>, id: int, tid: nat)
    requires SameThreads(ts, ts')
    ensures AdjustedTarget(ts', id, tid) == AdjustedTarget(ts, id, tid)
  {
    FindSame(ts, ts', ByTid(tid));
    FindSame(ts, ts', ById(id));
  }

  lemma {:induction false} AdjustedBpsSame(ts: seq<Thread>, ts': seq<Thread>, bps: seq<Bp>)
    requires SameThreads(ts, ts')
    ensures AdjustedBps(ts', bps) == AdjustedBps(ts, bps)
  {
    if bps != [] {
      if bps[0].target.Only? { AdjustedTargetSame(ts, ts', bps[0].target.id, bps[0].target.tid); }
      assert AdjustedBp(ts', bps[0]) == AdjustedBp(ts, bps[0]);
      AdjustedBpsSame(ts, ts', bps[1..]);
    }
  }

  lemma {:induction false} AdjustedWpsSame(ts: seq<Thread>, ts': seq<Thread>, wps: seq<Wp>)
    requires SameThreads(ts, ts')
    ensures AdjustedWps(ts', wps) == AdjustedWps(ts, wps)
  {
    if wps != [] {
      if wps[0].target.Only? { AdjustedTargetSame(ts, ts', wps[0].target.id, wps[0].target.tid); }
      assert AdjustedWp(ts', wps[0]) == AdjustedWp(ts, wps[0]);
      AdjustedWpsSame(ts, ts', wps[1..]);
    }
  }

  /** The verdict in terms of the point's TID alone. */
  lemma JudgeByTid(ts: seq<Thread>, id: int, tid: nat)
    requires Numbered(ts) && UniqueTids(ts)
    ensures var v := Judge(ts, id, tid);
            var k := FindTid(ts, tid);
            && (v.Delete? <==> k == |ts|)
            && (v.Keep? <==> k < |ts| && ts[k].id == id)
            && (v.Correct? ==> v.correct == k)
  {
  }

  lemma AdjustBpShape(s: State, k: nat)
    requires k < |s.bps|
    ensures var s' := AdjustBp(s, k);
            && SameThreads(s.threads, s'.threads) && s'.wps == s.wps
            && s'.bps == s.bps[..k] + AdjustedBp(s.threads, s.bps[k]) + s.bps[k + 1..]
  {
    hide Judge, ArmAll, Find;
    var b := s.bps[k];
    if b.target.Only? && b.hw {
      match Judge(s.threads, b.target.id, b.target.tid)
      case Keep => assert [b] == AdjustedBp(s.threads, b);
      case Delete => DeleteAtUnlinks(s, k);
      case Correct(found, correct) =>
        var s' := AdjustBp(s, k);
        assert s'.bps == s.bps[k := s'.bps[k]] && AdjustedBp(s.threads, b) == [s'.bps[k]];
    }
  }

  lemma AdjustBpJoin(ts: seq<Thread>, ts1: seq<Thread>, bps: seq<Bp>, bps1: seq<Bp>, k: nat)
    requires SameThreads(ts, ts1) && k < |bps|
    requires bps1 == bps[..k] + AdjustedBp(ts, bps[k]) + bps[k + 1..]
    ensures var k1 := k + |AdjustedBp(ts, bps[k])|;
            bps1[..k1] + AdjustedBps(ts1, bps1[k1..]) == bps[..k] + AdjustedBps(ts, bps[k..])
  {
    var one, k1 := AdjustedBp(ts, bps[k]), k + |AdjustedBp(ts, bps[k])|;
    assert AdjustedBps(ts, bps[k..]) == one + AdjustedBps(ts, bps[k + 1..]);
    hide Find, Judge, AdjustedBps, AdjustedBp;
    Splice(bps, k, one, bps1);
    AdjustedBpsSame(ts, ts1, bps[k + 1..]);
    Assoc(bps[..k], one, AdjustedBps(ts, bps[k + 1..]));
  }

  /** What adjust_breakpoints leaves in the list. */
  lemma {:induction false} AdjustBpsShape(s: State, k: nat)
    requires k <= |s.bps|
    ensures SameThreads(s.threads, AdjustBps(s, k).threads) && AdjustBps(s, k).wps == s.wps
    ensures AdjustBps(s, k).bps == s.bps[..k] + AdjustedBps(s.threads, s.bps[k..])
    decreases |s.bps| - k
  {
    if k < |s.bps| {
      var s1 := AdjustBp(s, k);
      var k1 := k + |AdjustedBp(s.threads, s.bps[k])|;
      AdjustBpShape(s, k);
      hide AdjustBp, AdjustedBp, AdjustedBps;
      AdjustBpsShape(s1, k1);
      AdjustBpJoin(s.threads, s1.threads, s.bps, s1.bps, k);
    }
  }

  lemma AdjustWpShape(s: State, k: nat)
    requires k < |s.wps|
    ensures var s' := AdjustWp(s, k);
            && SameThreads(s.threads, s'.threads) && s'.bps == s.bps
            && s'.wps == s.wps[..k] + AdjustedWp(s.threads, s.wps[k]) + s.wps[k + 1..]
  {
    var w := s.wps[k];
    if w.target.Only? {
      match Judge(s.threads, w.target.id, w.target.tid)
      case Keep => assert [w] == AdjustedWp(s.threads, w);
      case Delete => 
      case Correct(found, correct) =>
    }
  }

  lemma AdjustWpJoin(ts: seq<Thread>, ts1: seq<Thread>, wps: seq<Wp>, wps1: seq<Wp>, k: nat)
    requires SameThreads(ts, ts1) && k < |wps|
    requires wps1 == wps[..k] + AdjustedWp(ts, wps[k]) + wps[k + 1..]
    ensures var k1 := k + |AdjustedWp(ts, wps[k])|;
            wps1[..k1] + AdjustedWps(ts1, wps1[k1..]) == wps[..k] + AdjustedWps(ts, wps[k..])
  {
    var one, k1 := AdjustedWp(ts, wps[k]), k + |AdjustedWp(ts, wps[k])|;
    assert AdjustedWps(ts, wps[k..]) == one + AdjustedWps(ts, wps[k + 1..]);
    hide Find, Judge, AdjustedWps, AdjustedWp;
    Splice(wps, k, one, wps1);
    AdjustedWpsSame(ts, ts1, wps[k + 1..]);
    Assoc(wps[..k], one, AdjustedWps(ts, wps[k + 1..]));
  }

  /** What adjust_watchpoints leaves in the list. */
  lemma {:induction false} AdjustWpsShape(s: State, k: nat)
    requires k <= |s.wps|
    ensures SameThreads(s.threads, AdjustWps(s, k).threads) && AdjustWps(s, k).bps == s.bps
    ensures AdjustWps(s, k).wps == s.wps[..k] + AdjustedWps(s.threads, s.wps[k..])
    decreases |s.wps| - k
  {
    if k < |s.wps| {
      var s1 := AdjustWp(s, k);
      var k1 := k + |AdjustedWp(s.threads, s.wps[k])|;
      AdjustWpShape(s, k);
      hide AdjustWp, AdjustedWp, AdjustedWps;
      AdjustWpsShape(s1, k1);
      AdjustWpJoin(s.threads, s1.threads, s.wps, s1.wps, k);
    }
  }

  /** The lists after both loops. */
  lemma UpdateShape(s: State)
    ensures var s' := AdjustWps(AdjustBps(s, 0), 0);
      SameThreads(s.threads, s'.threads) && s'.bps == AdjustedBps(s.threads, s.bps) && s'.wps == AdjustedWps(s.threads, s.wps)
  {
    hide AdjustBps, AdjustWps;
    AdjustBpsShape(s, 0);
    var s1 := AdjustBps(s, 0);
    AdjustWpsShape(s1, 0);
    assert s.bps[0..] == s.bps && s1.wps[0..] == s1.wps;
    AdjustedWpsSame(s.threads, s1.threads, s.wps);
  }

  // ----- what adjusting leaves of the points

  /** A point for one thread goes with that thread. */
  predicate Alive(ts: seq<Thread>, p: Point) {
    p.reg == -1 || p.target.All? || FindTid(ts, p.target.tid) < |ts|
  }

  /** It gets its thread's current ID. */
  function Current(ts: seq<Thread>, p: Point): Point
    requires Alive(ts, p)
  {
    if p.reg == -1 || p.target.All? then p else p.(target := Only(ts[FindTid(ts, p.target.tid)].id, p.target.tid))
  }

  function AdjustedPoints(ts: seq<Thread>, pts: seq<Point>): seq<Point> {
    if pts == [] then [] else (if Alive(ts, pts[0]) then [Current(ts, pts[0])] else []) + AdjustedPoints(ts, pts[1..])
  }

  lemma BpPointsJoin(xs: seq<Bp>, ys: seq<Bp>)
    ensures BpPoints(xs + ys) == BpPoints(xs) + BpPoints(ys)
  {
  }

  lemma WpPointsJoin(xs: seq<Wp>, ys: seq<Wp>)
    ensures WpPoints(xs + ys) == WpPoints(xs) + WpPoints(ys)
  {
  }

  lemma {:induction false} BpPointsAdjusted(ts: seq<Thread>, bps: seq<Bp>)
    requires Numbered(ts) && UniqueTids(ts) && forall k :: 0 <= k < |bps| && bps[k].hw ==> bps[k].reg != -1
    ensures BpPoints(AdjustedBps(ts, bps)) == AdjustedPoints(ts, BpPoints(bps))
  {
    if bps != [] {
      var b := bps[0];
      if b.target.Only? { AdjustedTargetByTid(ts, b.target.id, b.target.tid); }
      BpPointsAdjusted(ts, bps[1..]);
      BpPointsJoin(AdjustedBp(ts, b), AdjustedBps(ts, bps[1..]));
      assert BpPoints(bps)[1..] == BpPoints(bps[1..]);
      assert BpPoints(AdjustedBp(ts, b)) == if Alive(ts, BpPoints(bps)[0]) then [Current(ts, BpPoints(bps)[0])] else [];
    }
  }

  lemma {:induction false} WpPointsAdjusted(ts: seq<Thread>, wps: seq<Wp>)
    requires Numbered(ts) && UniqueTids(ts) && forall k :: 0 <= k < |wps| ==> wps[k].reg != -1
    ensures WpPoints(AdjustedWps(ts, wps)) == AdjustedPoints(ts, WpPoints(wps))
  {
    if wps != [] {
      var w := wps[0];
      if w.target.Only? { AdjustedTargetByTid(ts, w.target.id, w.target.tid); }
      WpPointsAdjusted(ts, wps[1..]);
      WpPointsJoin(AdjustedWp(ts, w), AdjustedWps(ts, wps[1..]));
      assert WpPoints(wps)[1..] == WpPoints(wps[1..]);
      assert WpPoints(AdjustedWp(ts, w)) == if Alive(ts, WpPoints(wps)[0]) then [Current(ts, WpPoints(wps)[0])] else [];
    }
  }

  /** Every point left is one of the old ones. */
  lemma {:induction false} PointFrom(ts: seq<Thread>, pts: seq<Point>, j: nat) returns (k: nat)
    requires j < |AdjustedPoints(ts, pts)|
    ensures k < |pts| && Alive(ts, pts[k]) && AdjustedPoints(ts, pts)[j] == Current(ts, pts[k])
  {
    hide Alive, Current;
    if Alive(ts, pts[0]) && j == 0 { k := 0; }
    else {
      k := PointFrom(ts, pts[1..], if Alive(ts, pts[0]) then j - 1 else j);
      k := k + 1;
    }
  }

  /** Every point of a living thread is left. */
  lemma {:induction false} PointKept(ts: seq<Thread>, pts: seq<Point>, k: nat) returns (j: nat)
    requires k < |pts| && Alive(ts, pts[k])
    ensures j < |AdjustedPoints(ts, pts)| && AdjustedPoints(ts, pts)[j] == Current(ts, pts[k])
  {
    hide Alive, Current;
    if k == 0 { j := 0; }
    else {
      j := PointKept(ts, pts[1..], k - 1);
      j := if Alive(ts, pts[0]) then j + 1 else j;
    }
  }

  lemma {:induction false} AdjustedDistinct(ts: seq<Thread>, pts: seq<Point>)
    requires DistinctRegs(pts) && InBank(pts)
    ensures DistinctRegs(AdjustedPoints(ts, pts)) && InBank(AdjustedPoints(ts, pts))
  {
    if pts != [] {
      AdjustedDistinct(ts, pts[1..]);
      var rest := AdjustedPoints(ts, pts[1..]);
      forall j | 0 <= j < |rest| && pts[0].reg != -1 ensures rest[j].reg != pts[0].reg {
        var k := PointFrom(ts, pts[1..], j);
        assert pts[1..][k] == pts[k + 1];
      }
    }
  }

  lemma AdjustedAimed(ts: seq<Thread>, ts': seq<Thread>, pts: seq<Point>)
    requires Numbered(ts) && SameThreads(ts, ts')
    ensures AllAimed(ts', AdjustedPoints(ts, pts))
  {
    var pts' := AdjustedPoints(ts, pts);
    forall j | 0 <= j < |pts'| && pts'[j].reg != -1 ensures Aimed(ts', pts'[j].target) {
      var k := PointFrom(ts, pts, j);
      if pts'[j].target.Only? { assert ts'[FindTid(ts, pts[k].target.tid)].tid == pts'[j].target.tid; }
    }
  }

  // ----- the registers after the adjust loops

  /** No register changes but `q` of bank `b`. */
  predicate OtherSame(regs: DebugRegs, regs': DebugRegs, b: Bank, q: int) {
    forall c: Bank, r :: 0 <= r < NUM_SLOTS && (c != b || r != q) ==> regs'.Get(c)[r] == regs.Get(c)[r]
  }

  /** Re-aiming a point, enabled or not, arms it on the right thread alone and keeps every other register. */
  lemma ReaimKeeps(ts: seq<Thread>, b: Bank, p: Point, found: nat, correct: nat, i: nat)
    requires UniqueTids(ts) && 0 <= p.reg < NUM_SLOTS && p.target.Only?
    requires found < |ts| && correct < |ts| && ts[correct].tid == p.target.tid && i < |ts|
    requires Holds(ts[i].regs.Get(b)[p.reg], p, p.armed && ts[i].tid == p.target.tid)
    ensures var t' := Reaim(ts, b, p.reg, p.slot, found, correct)[i];
            && Holds(t'.regs.Get(b)[p.reg], p, ts[i].tid == p.target.tid)
            && OtherSame(ts[i].regs, t'.regs, b, p.reg)
            && t'.regs.step == (i != found && ts[i].regs.step)
            && (i == found && i != correct ==> t'.regs.Get(b)[p.reg] == Slot(0, 0))
            && t' == ts[i].(regs := t'.regs)
  {
  }

  /** Deleting the point of a dead thread leaves no register armed for it and keeps every other one. */
  lemma DropDead(ts: seq<Thread>, b: Bank, p: Point, i: nat)
    requires 0 <= p.reg < NUM_SLOTS && p.target.Only? && i < |ts| && FindTid(ts, p.target.tid) == |ts|
    requires Holds(ts[i].regs.Get(b)[p.reg], p, p.armed && ts[i].tid == p.target.tid)
    ensures var t' := DisarmAll(ts, p.target, b, p.reg)[i];
            && t'.regs.Get(b)[p.reg].ctl == 0
            && OtherSame(ts[i].regs, t'.regs, b, p.reg)
  {
    assert ts[i].tid != p.target.tid;
  }

  predicate DistinctOwners(bps: seq<Bp>) {
    forall i, j :: 0 <= i < j < |bps| && bps[i].hw && bps[j].hw ==> bps[i].reg != bps[j].reg
  }

  predicate DistinctWps(wps: seq<Wp>) {
    forall i, j :: 0 <= i < j < |wps| ==> wps[i].reg != wps[j].reg
  }

  /** No breakpoint of these that is meant for one thread owns register `r`. */
  predicate OthersOwn(bps: seq<Bp>, r: int) {
    forall j :: 0 <= j < |bps| && bps[j].hw && bps[j].target.Only? ==> bps[j].reg != r
  }

  predicate OtherWpsOwn(wps: seq<Wp>, r: int) {
    forall j :: 0 <= j < |wps| && wps[j].target.Only? ==> wps[j].reg != r
  }

  /** The place of the breakpoint that comes next. */
  function AfterBp(s: State, k: nat): (k': nat)
    requires k < |s.bps|
    ensures k' <= |AdjustBp(s, k).bps|
  {
    if |AdjustBp(s, k).bps| < |s.bps| then k else k + 1
  }

  function AfterWp(s: State, k: nat): (k': nat)
    requires k < |s.wps|
    ensures k' <= |AdjustWp(s, k).wps|
  {
    if |AdjustWp(s, k).wps| < |s.wps| then k else k + 1
  }

  lemma AdjustBpRest(s: State, k: nat)
    requires k < |s.bps|
    ensures AdjustBp(s, k).bps[AfterBp(s, k)..] == s.bps[k..][1..] && SameThreads(s.threads, AdjustBp(s, k).threads)
  {
    AdjustBpShape(s, k);
  }

  lemma AdjustWpRest(s: State, k: nat)
    requires k < |s.wps|
    ensures AdjustWp(s, k).wps[AfterWp(s, k)..] == s.wps[k..][1..] && SameThreads(s.threads, AdjustWp(s, k).threads)
  {
    AdjustWpShape(s, k);
  }

  lemma ReaimTouches(ts: seq<Thread>, b: Bank, q: int, slot: Slot, found: nat, correct: nat, i: nat)
    requires found < |ts| && correct < |ts| && i < |ts|
    ensures OtherSame(ts[i].regs, Reaim(ts, b, q, slot, found, correct)[i].regs, b, q)
  {
  }

  lemma DisarmTouches(ts: seq<Thread>, g: Target, b: Bank, q: int, i: nat)
    requires i < |ts|
    ensures OtherSame(ts[i].regs, DisarmAll(ts, g, b, q)[i].regs, b, q)
  {
  }

  /** One round touches no register but the point's own. */
  lemma AdjustBpLeaves(s: State, k: nat, i: nat, r: nat)
    requires k < |s.bps| && i < |s.threads| && r < NUM_SLOTS
    ensures var regs, regs' := s.threads[i].regs, AdjustBp(s, k).threads[i].regs;
            regs'.watches == regs.watches && (!(s.bps[k].hw && s.bps[k].target.Only? && s.bps[k].reg == r) ==> regs'.breaks[r] == regs.breaks[r])
  {
    AdjustBpRest(s, k);
    var b, s' := s.bps[k], AdjustBp(s, k);
    hide Judge, Reaim, DisarmAll;
    if b.hw && b.target.Only? {
      match Judge(s.threads, b.target.id, b.target.tid) {
      case Keep =>
      case Delete => DisarmTouches(s.threads, b.target, Breaks, b.reg, i);
      case Correct(found, correct) => ReaimTouches(s.threads, Breaks, b.reg, b.slot, found, correct, i);
      }
      assert OtherSame(s.threads[i].regs, s'.threads[i].regs, Breaks, b.reg);
      OtherSameBank(s.threads[i].regs, s'.threads[i].regs, Breaks, b.reg, r);
    }
  }

  lemma OtherSameBank(regs: DebugRegs, regs': DebugRegs, b: Bank, q: int, r: nat)
    requires OtherSame(regs, regs', b, q) && r < NUM_SLOTS
    ensures regs'.Get(OtherBank(b)) == regs.Get(OtherBank(b)) && (r != q ==> regs'.Get(b)[r] == regs.Get(b)[r])
  {
    var c := OtherBank(b);
    assert forall j :: 0 <= j < NUM_SLOTS ==> regs'.Get(c)[j] == regs.Get(c)[j];
  }

  function OtherBank(b: Bank): Bank {
    if b.Breaks? then Watches else Breaks
  }

  lemma AdjustWpLeaves(s: State, k: nat, i: nat, r: nat)
    requires k < |s.wps| && i < |s.threads| && r < NUM_SLOTS
    ensures var regs, regs' := s.threads[i].regs, AdjustWp(s, k).threads[i].regs;
            regs'.breaks == regs.breaks && (!(s.wps[k].target.Only? && s.wps[k].reg == r) ==> regs'.watches[r] == regs.watches[r])
  {
    AdjustWpRest(s, k);
    var w, s' := s.wps[k], AdjustWp(s, k);
    hide Judge, Reaim, DisarmAll;
    if w.target.Only? {
      match Judge(s.threads, w.target.id, w.target.tid) {
      case Keep =>
      case Delete => DisarmTouches(s.threads, w.target, Watches, w.reg, i);
      case Correct(found, correct) => ReaimTouches(s.threads, Watches, w.reg, w.slot, found, correct, i);
      }
      assert OtherSame(s.threads[i].regs, s'.threads[i].regs, Watches, w.reg);
      OtherSameBank(s.threads[i].regs, s'.threads[i].regs, Watches, w.reg, r);
    }
  }

  lemma {:induction false} AdjustBpsLeave(s: State, k: nat, i: nat, r: nat)
    requires k <= |s.bps| && i < |s.threads| && r < NUM_SLOTS
    ensures SameThreads(s.threads, AdjustBps(s, k).threads)
    ensures var regs, regs' := s.threads[i].regs, AdjustBps(s, k).threads[i].regs;
            regs'.watches == regs.watches && (OthersOwn(s.bps[k..], r) ==> regs'.breaks[r] == regs.breaks[r])
    decreases |s.bps| - k
  {
    if k < |s.bps| {
      AdjustBpLeaves(s, k, i, r);
      AdjustBpRest(s, k);
      hide AdjustBp;
      AdjustBpsLeave(AdjustBp(s, k), AfterBp(s, k), i, r);
    }
  }

  lemma {:induction false} AdjustWpsLeave(s: State, k: nat, i: nat, r: nat)
    requires k <= |s.wps| && i < |s.threads| && r < NUM_SLOTS
    ensures SameThreads(s.threads, AdjustWps(s, k).threads)
    ensures var regs, regs' := s.threads[i].regs, AdjustWps(s, k).threads[i].regs;
            regs'.breaks == regs.breaks && (OtherWpsOwn(s.wps[k..], r) ==> regs'.watches[r] == regs.watches[r])
    decreases |s.wps| - k
  {
    if k < |s.wps| {
      AdjustWpLeaves(s, k, i, r);
      AdjustWpRest(s, k);
      hide AdjustWp;
      AdjustWpsLeave(AdjustWp(s, k), AfterWp(s, k), i, r);
    }
  }

  function PointOf(b: Bp): Point {
    Point(b.reg, b.target, !b.disabled, b.slot)
  }

  function WpPoint(w: Wp): Point {
    Point(w.reg, w.target, true, w.slot)
  }

  /** The thread a point is meant for, under another ID than the point has. */
  predicate Moved(t: Thread, g: Target) {
    g.Only? && g.tid == t.tid && g.id != t.id
  }

  /** What a round leaves in the register of a breakpoint meant for one thread: its word on that
      thread if it is enabled or the thread has moved, and no control word elsewhere. */
  lemma AdjustBpOwn(s: State, k: nat, i: nat)
    requires k < |s.bps| && i < |s.threads| && Numbered(s.threads) && UniqueTids(s.threads)
    requires s.bps[k].hw && 0 <= s.bps[k].reg < NUM_SLOTS && s.bps[k].target.Only?
    requires var b := s.bps[k]; Holds(s.threads[i].regs.breaks[b.reg], PointOf(b), !b.disabled && s.threads[i].tid == b.target.tid)
    ensures |AdjustBp(s, k).threads| == |s.threads|
    ensures var b, t := s.bps[k], s.threads[i];
            Holds(AdjustBp(s, k).threads[i].regs.breaks[b.reg], PointOf(b), t.tid == b.target.tid && (!b.disabled || Moved(t, b.target)))
  {
    var b := s.bps[k];
    JudgeByTid(s.threads, b.target.id, b.target.tid);
    match Judge(s.threads, b.target.id, b.target.tid)
    case Keep =>
    case Delete => DropDead(s.threads, Breaks, PointOf(b), i);
    case Correct(found, correct) => ReaimKeeps(s.threads, Breaks, PointOf(b), found, correct, i);
  }

  lemma AdjustWpOwn(s: State, k: nat, i: nat)
    requires k < |s.wps| && i < |s.threads| && Numbered(s.threads) && UniqueTids(s.threads)
    requires 0 <= s.wps[k].reg < NUM_SLOTS && s.wps[k].target.Only?
    requires var w := s.wps[k]; Holds(s.threads[i].regs.watches[w.reg], WpPoint(w), s.threads[i].tid == w.target.tid)
    ensures |AdjustWp(s, k).threads| == |s.threads|
    ensures var w := s.wps[k]; Holds(AdjustWp(s, k).threads[i].regs.watches[w.reg], WpPoint(w), s.threads[i].tid == w.target.tid)
  {
    var w := s.wps[k];
    JudgeByTid(s.threads, w.target.id, w.target.tid);
    match Judge(s.threads, w.target.id, w.target.tid)
    case Keep =>
    case Delete => DropDead(s.threads, Watches, WpPoint(w), i);
    case Correct(found, correct) => ReaimKeeps(s.threads, Watches, WpPoint(w), found, correct, i);
  }

  /** Retargeting rewrites the registers of the two threads and the point's target, and nothing else. */
  lemma RetargetIs(s: State, k: nat, found: nat, correct: nat)
    requires found < |s.threads| && correct < |s.threads|
    ensures k < |s.bps| ==> var b, t := s.bps[k], s.threads[correct];
              RetargetBp(s, k, found, correct) == s.(bps := s.bps[k := b.(target := Only(t.id, t.tid))], threads := Reaim(s.threads, Breaks, b.reg, b.slot, found, correct))
    ensures k < |s.wps| ==> var w, t := s.wps[k], s.threads[correct];
              RetargetWp(s, k, found, correct) == s.(wps := s.wps[k := w.(target := Only(t.id, t.tid))], threads := Reaim(s.threads, Watches, w.reg, w.slot, found, correct))
  {
  }

  /** A breakpoint meant for one thread, and what the i-th thread has in its register beforehand. */
  predicate OwnBefore(ts: seq<Thread>, b: Bp, i: nat) {
    && i < |ts| && Numbered(ts) && UniqueTids(ts) && b.hw && 0 <= b.reg < NUM_SLOTS && b.target.Only?
    && Holds(ts[i].regs.breaks[b.reg], PointOf(b), !b.disabled && ts[i].tid == b.target.tid)
  }

  predicate OwnAfter(ts: seq<Thread>, ts': seq<Thread>, b: Bp, i: nat) {
    && i < |ts| == |ts'| && 0 <= b.reg < NUM_SLOTS && b.target.Only?
    && Holds(ts'[i].regs.breaks[b.reg], PointOf(b), ts[i].tid == b.target.tid && (!b.disabled || Moved(ts[i], b.target)))
  }

  /** The breakpoint's own round comes now. */
  lemma AdjustBpsOwn(s: State, k: nat, i: nat)
    requires k < |s.bps| && OwnBefore(s.threads, s.bps[k], i) && OthersOwn(s.bps[k..][1..], s.bps[k].reg)
    ensures OwnAfter(s.threads, AdjustBps(s, k).threads, s.bps[k], i)
  {
    AdjustBpOwn(s, k, i);
    AdjustBpRest(s, k);
    hide AdjustBp, Holds;
    AdjustBpsLeave(AdjustBp(s, k), AfterBp(s, k), i, s.bps[k].reg);
  }

  /** Another one's round comes first. */
  lemma AdjustBpOther(s: State, k: nat, b: Bp, i: nat)
    requires k < |s.bps| && OwnBefore(s.threads, b, i) && (s.bps[k].hw ==> s.bps[k].reg != b.reg)
    ensures OwnBefore(AdjustBp(s, k).threads, b, i) && SameThreads(s.threads, AdjustBp(s, k).threads)
  {
    AdjustBpRest(s, k);
    AdjustBpLeaves(s, k, i, b.reg);
    hide AdjustBp;
  }

  lemma OwnAfterSame(ts: seq<Thread>, ts1: seq<Thread>, ts': seq<Thread>, b: Bp, i: nat)
    requires SameThreads(ts, ts1) && OwnAfter(ts1, ts', b, i)
    ensures OwnAfter(ts, ts', b, i)
  {
  }

  lemma DistinctRest(bps: seq<Bp>)
    requires DistinctOwners(bps) && bps != []
    ensures DistinctOwners(bps[1..]) && (bps[0].hw ==> OthersOwn(bps[1..], bps[0].reg))
    ensures forall b :: b in bps[1..] && b.hw && bps[0].hw ==> bps[0].reg != b.reg
  {
  }

  /** What adjust_breakpoints leaves there: `rest` is still to come. */
  lemma {:induction false} AdjustBpsHold(s: State, k: nat, rest: seq<Bp>, b: Bp, i: nat)
    requires k <= |s.bps| && rest == s.bps[k..] && DistinctOwners(rest) && b in rest && OwnBefore(s.threads, b, i)
    ensures OwnAfter(s.threads, AdjustBps(s, k).threads, b, i)
    decreases |rest|
  {
    DistinctRest(rest);
    assert b.hw && rest[0] == s.bps[k];
    hide OwnBefore, OwnAfter, DistinctOwners, OthersOwn;
    if b == rest[0] {
      AdjustBpsOwn(s, k, i);
    } else {
      AdjustBpOther(s, k, b, i);
      AdjustBpRest(s, k);
      var s1, k1 := AdjustBp(s, k), AfterBp(s, k);
      assert AdjustBps(s, k) == AdjustBps(s1, k1) && b in rest[1..];
      hide AdjustBp, AdjustBps, AfterBp, SameThreads;
      AdjustBpsHold(s1, k1, rest[1..], b, i);
      OwnAfterSame(s.threads, s1.threads, AdjustBps(s1, k1).threads, b, i);
    }
  }

  lemma {:induction false} AdjustWpsHold(s: State, k: nat, p: nat, i: nat)
    requires k + p < |s.wps| && i < |s.threads| && Numbered(s.threads) && UniqueTids(s.threads) && DistinctWps(s.wps[k..])
    requires var w := s.wps[k..][p]; 0 <= w.reg < NUM_SLOTS && w.target.Only?
    requires var w := s.wps[k..][p]; Holds(s.threads[i].regs.watches[w.reg], WpPoint(w), s.threads[i].tid == w.target.tid)
    ensures |AdjustWps(s, k).threads| == |s.threads|
    ensures var w := s.wps[k..][p]; Holds(AdjustWps(s, k).threads[i].regs.watches[w.reg], WpPoint(w), s.threads[i].tid == w.target.tid)
    decreases p
  {
    var r := s.wps[k..][p].reg;
    AdjustWpRest(s, k);
    if p == 0 {
      AdjustWpOwn(s, k, i);
      hide AdjustWp, Holds;
      AdjustWpsLeave(AdjustWp(s, k), AfterWp(s, k), i, r);
    } else {
      assert s.wps[k..][0] == s.wps[k];
      AdjustWpLeaves(s, k, i, r);
      hide AdjustWp, Holds, AfterWp;
      AdjustWpsHold(AdjustWp(s, k), AfterWp(s, k), p - 1, i);
    }
  }

  // ----- lists and code

  /** The engine's invariant but for the registers. */
  ghost predicate ListsOk(s: State, orig: Code) {
    Shaped(s) && CodeOk(s, orig)
  }

  lemma DeleteHwCodeOk(s: State, k: nat, orig: Code)
    requires CodeOk(s, orig) && k < |s.bps| && s.bps[k].hw
    ensures CodeOk(DeleteAt(s, k), orig)
  {
    var s' := DeleteAt(s, k);
    DeleteAtUnlinks(s, k);
    assert forall j :: 0 <= j < |s'.bps| ==> s'.bps[j] == s.bps[if j < k then j else j + 1];
    forall a | PatchedAt(s.bps, a) ensures PatchedAt(s'.bps, a) {
      var j :| 0 <= j < |s.bps| && !s.bps[j].hw && s.bps[j].location == a;
      assert s'.bps[if j < k then j else j - 1] == s.bps[j];
    }
  }

  lemma AdjustBpKeeps(s: State, k: nat, orig: Code)
    requires ListsOk(s, orig) && k < |s.bps|
    ensures ListsOk(AdjustBp(s, k), orig)
  {
    hide Judge;
    var b := s.bps[k];
    if b.target.Only? && b.hw {
      match Judge(s.threads, b.target.id, b.target.tid)
      case Keep =>
      case Delete =>
        DeleteHwCodeOk(s, k, orig);
        SetStateShaped(s, k, true);
        UnlinkShaped(SetState(s, k, true), k);
      case Correct(found, correct) => PatchedSame(s.bps, AdjustBp(s, k).bps);
    }
  }

  lemma {:induction false} AdjustBpsKeeps(s: State, k: nat, orig: Code)
    requires ListsOk(s, orig) && k <= |s.bps|
    ensures ListsOk(AdjustBps(s, k), orig)
    decreases |s.bps| - k
  {
    if k < |s.bps| {
      AdjustBpKeeps(s, k, orig);
      hide ListsOk, AdjustBp;
      AdjustBpsKeeps(AdjustBp(s, k), AfterBp(s, k), orig);
    }
  }

  lemma AdjustWpKeeps(s: State, k: nat, orig: Code)
    requires ListsOk(s, orig) && k < |s.wps|
    ensures ListsOk(AdjustWp(s, k), orig)
  {
    hide Judge;
    DeleteWpShaped(s, k);
  }

  lemma {:induction false} AdjustWpsKeeps(s: State, k: nat, orig: Code)
    requires ListsOk(s, orig) && k <= |s.wps|
    ensures ListsOk(AdjustWps(s, k), orig)
    decreases |s.wps| - k
  {
    if k < |s.wps| {
      AdjustWpKeeps(s, k, orig);
      hide ListsOk, AdjustWp;
      AdjustWpsKeeps(AdjustWp(s, k), AfterWp(s, k), orig);
    }
  }

  lemma UpdateKeepsLists(s: State, live: seq<Live>, orig: Code)
    requires ListsOk(s, orig)
    ensures ListsOk(ThreadUpdate(s, live), orig)
  {
    var s0 := Relisted(s, live);
    RefocusMoves(UpdateThreads(s, live).threads);
    assert ListsOk(s0, orig) by { hide Refocus; }
    hide ListsOk, AdjustBps, AdjustWps;
    AdjustBpsKeeps(s0, 0, orig);
    AdjustWpsKeeps(AdjustBps(s0, 0), 0, orig);
  }

  // ----- every register after an update

  /** Whether the word of point `p` stands in its register of the i-th live thread after an update. */
  predicate Stands(ts: seq<Thread>, l: Live, p: Point, i: nat) {
    if p.target.All? then TakenForNew(ts, i) || (p.armed && Seen(ts, l))
    else p.target.tid == l.tid && (p.armed || p.target.id != i + 1)
  }

  /** Whether it should. */
  predicate Meant(l: Live, p: Point) {
    p.armed && AimsAt(p.target, l.tid)
  }

  /** Every register of every live thread: those the points own, and the others. */
  predicate Registers(ts: seq<Thread>, live: seq<Live>, b: Bank, pts: seq<Point>, ts': seq<Thread>) {
    && |ts'| == |live| && InBank(pts)
    && (forall i, k :: 0 <= i < |live| && 0 <= k < |pts| && pts[k].reg != -1 ==>
          Holds(ts'[i].regs.Get(b)[pts[k].reg], pts[k], Stands(ts, live[i], pts[k], i)))
    && (forall i, r :: 0 <= i < |live| && 0 <= r < NUM_SLOTS && Unowned(pts, r) ==> ts'[i].regs.Get(b)[r].ctl == 0)
  }

  /** The rebuilt threads: the live ones, numbered from 1. */
  lemma RelistedAt(s: State, live: seq<Live>, i: nat)
    requires i < |live|
    ensures |Relisted(s, live).threads| == |live| && Relisted(s, live).bps == s.bps && Relisted(s, live).wps == s.wps
    ensures var t := Relisted(s, live).threads[i]; t.tid == live[i].tid && t.id == i + 1 && t.regs == Rebuilt(s, live[i], i).regs
  {
    RefocusMoves(UpdateThreads(s, live).threads);
    hide Refocus;
  }

  lemma RelistedNumbered(s: State, live: seq<Live>)
    requires KernelAgrees(s.threads, live)
    ensures var ts := Relisted(s, live).threads; |ts| == |live| && Numbered(ts) && UniqueTids(ts)
  {
    RefocusMoves(UpdateThreads(s, live).threads);
    hide Refocus;
  }

  lemma InvOwners(s: State, orig: Code)
    requires Inv(s, orig)
    ensures DistinctOwners(s.bps) && DistinctWps(s.wps)
    ensures forall k :: 0 <= k < |s.bps| ==> BpPoints(s.bps)[k].reg == s.bps[k].reg
  {
    var bpts, wpts := BpPoints(s.bps), WpPoints(s.wps);
    assert forall k :: 0 <= k < |s.bps| ==> bpts[k].reg == s.bps[k].reg;
    assert forall k :: 0 <= k < |s.wps| ==> wpts[k].reg == s.wps[k].reg;
    hide BankOk, CodeOk;
    assert DistinctRegs(bpts) && DistinctRegs(wpts) by { BankDistinct(s.threads, Breaks, bpts); BankDistinct(s.threads, Watches, wpts); }
  }

  lemma BankDistinct(ts: seq<Thread>, b: Bank, pts: seq<Point>)
    requires BankOk(ts, b, pts)
    ensures DistinctRegs(pts) && InBank(pts)
  {
  }

  lemma Ready(s: State, live: seq<Live>, orig: Code)
    requires Inv(s, orig) && Churnable(s, live)
    ensures Rebuildable(s, live, Breaks) && Rebuildable(s, live, Watches)
  {
    BankDistinct(s.threads, Breaks, BpPoints(s.bps));
    BankDistinct(s.threads, Watches, WpPoints(s.wps));
    hide BankOk, AllAimed, KernelAgrees, UniqueTids, CodeOk;
  }

  /** One register of one thread after adjust_breakpoints. */
  lemma AdjustedBreak(s: State, live: seq<Live>, i: nat, k: nat, orig: Code)
    requires Inv(s, orig) && Churnable(s, live) && i < |live| && k < |s.bps| && s.bps[k].hw
    ensures |AdjustBps(Relisted(s, live), 0).threads| == |live|
    ensures var p := BpPoints(s.bps)[k];
            0 <= p.reg < NUM_SLOTS && Holds(AdjustBps(Relisted(s, live), 0).threads[i].regs.breaks[p.reg], p, Stands(s.threads, live[i], p, i))
  {
    var s0, b, p := Relisted(s, live), s.bps[k], BpPoints(s.bps)[k];
    Ready(s, live, orig);
    InvOwners(s, orig);
    RelistedAt(s, live, i);
    RelistedNumbered(s, live);
    RebuiltHolds(s, live, Breaks, i, k);
    assert p == PointOf(b) && 0 <= b.reg < NUM_SLOTS && s0.bps[0..] == s.bps;
    hide Inv, Churnable, Rebuildable, AdjustBps, Relisted, Rebuilt, Holds, BpPoints, Seen, UniqueTids, Numbered;
    if b.target.All? {
      OthersOwnNone(s.bps, k);
      AdjustBpsLeave(s0, 0, i, b.reg);
    } else {
      AdjustBpsHold(s0, 0, s.bps, b, i);
    }
  }

  lemma OthersOwnNone(bps: seq<Bp>, k: nat)
    requires DistinctOwners(bps) && k < |bps| && bps[k].hw && bps[k].target.All?
    ensures OthersOwn(bps, bps[k].reg)
  {
  }

  lemma OtherWpsOwnNone(wps: seq<Wp>, k: nat)
    requires DistinctWps(wps) && k < |wps| && wps[k].target.All?
    ensures OtherWpsOwn(wps, wps[k].reg)
  {
  }

  /** One register of one thread after the whole update. */
  lemma UpdatedWatch(s: State, live: seq<Live>, i: nat, k: nat, orig: Code)
    requires Inv(s, orig) && Churnable(s, live) && i < |live| && k < |s.wps|
    ensures |ThreadUpdate(s, live).threads| == |live|
    ensures var p := WpPoints(s.wps)[k];
            0 <= p.reg < NUM_SLOTS && Holds(ThreadUpdate(s, live).threads[i].regs.watches[p.reg], p, Stands(s.threads, live[i], p, i))
  {
    var s0, w, p := Relisted(s, live), s.wps[k], WpPoints(s.wps)[k];
    var s1 := AdjustBps(s0, 0);
    Ready(s, live, orig);
    InvOwners(s, orig);
    RelistedAt(s, live, i);
    RelistedNumbered(s, live);
    RebuiltHolds(s, live, Watches, i, k);
    assert p == WpPoint(w) && 0 <= w.reg < NUM_SLOTS;
    AdjustBpsLeave(s0, 0, i, w.reg);
    AdjustBpsShape(s0, 0);
    assert s1.wps[0..] == s.wps;
    assert Numbered(s1.threads) && UniqueTids(s1.threads);
    hide Inv, Churnable, Rebuildable, AdjustBps, AdjustWps, Relisted, Rebuilt, Holds, WpPoints, Seen, UniqueTids, Numbered;
    if w.target.All? {
      OtherWpsOwnNone(s.wps, k);
      AdjustWpsLeave(s1, 0, i, w.reg);
    } else {
      AdjustWpsHold(s1, 0, k, i);
    }
  }

  /** A register that no point owns. */
  lemma UpdatedUnowned(s: State, live: seq<Live>, b: Bank, i: nat, r: nat, orig: Code)
    requires Inv(s, orig) && Churnable(s, live) && i < |live| && r < NUM_SLOTS && Unowned(PointsOf(s, b), r)
    ensures |ThreadUpdate(s, live).threads| == |live| && ThreadUpdate(s, live).threads[i].regs.Get(b)[r].ctl == 0
  {
    var s0 := Relisted(s, live);
    var s1 := AdjustBps(s0, 0);
    Ready(s, live, orig);
    InvOwners(s, orig);
    RelistedAt(s, live, i);
    RebuiltUnowned(s, live, b, i, r);
    UnownedOthers(s, b, r);
    AdjustBpsLeave(s0, 0, i, r);
    AdjustBpsShape(s0, 0);
    assert s0.bps[0..] == s.bps && s1.wps[0..] == s.wps;
    AdjustWpsLeave(s1, 0, i, r);
    hide Inv, Churnable, Rebuildable, AdjustBps, AdjustWps, Relisted, Rebuilt;
  }

  lemma UnownedOthers(s: State, b: Bank, r: nat)
    requires Unowned(PointsOf(s, b), r)
    ensures if b.Breaks? then OthersOwn(s.bps, r) else OtherWpsOwn(s.wps, r)
  {
    if b.Breaks? {
      forall j | 0 <= j < |s.bps| && s.bps[j].hw ensures s.bps[j].reg != r { assert PointsOf(s, b)[j].reg == s.bps[j].reg; }
    } else {
      forall j | 0 <= j < |s.wps| ensures s.wps[j].reg != r { assert PointsOf(s, b)[j].reg == s.wps[j].reg; }
    }
  }

  lemma UpdatedBreak(s: State, live: seq<Live>, i: nat, k: nat, orig: Code)
    requires Inv(s, orig) && Churnable(s, live) && i < |live| && k < |s.bps| && s.bps[k].hw
    ensures |ThreadUpdate(s, live).threads| == |live|
    ensures var p := BpPoints(s.bps)[k];
            0 <= p.reg < NUM_SLOTS && Holds(ThreadUpdate(s, live).threads[i].regs.breaks[p.reg], p, Stands(s.threads, live[i], p, i))
  {
    AdjustedBreak(s, live, i, k, orig);
    hide Inv, Churnable, AdjustBps, AdjustWps, Relisted, Holds, Stands;
    AdjustWpsLeave(AdjustBps(Relisted(s, live), 0), 0, i, BpPoints(s.bps)[k].reg);
  }

  lemma UpdatedRegisters(s: State, live: seq<Live>, b: Bank, orig: Code)
    requires Inv(s, orig) && Churnable(s, live)
    ensures Registers(s.threads, live, b, PointsOf(s, b), ThreadUpdate(s, live).threads)
  {
    var pts, ts' := PointsOf(s, b), ThreadUpdate(s, live).threads;
    RelistedNumbered(s, live);
    UpdateShape(Relisted(s, live));
    BankDistinct(s.threads, b, pts);
    hide Relisted, ThreadUpdate, Holds, Stands, Unowned, KernelAgrees, AllAimed, Numbered, UniqueTids, Shaped, CodeOk, BankOk;
    forall i, k | 0 <= i < |live| && 0 <= k < |pts| && pts[k].reg != -1
      ensures Holds(ts'[i].regs.Get(b)[pts[k].reg], pts[k], Stands(s.threads, live[i], pts[k], i))
    {
      if b.Breaks? { UpdatedBreak(s, live, i, k, orig); } else { UpdatedWatch(s, live, i, k, orig); }
    }
    forall i, r | 0 <= i < |live| && 0 <= r < NUM_SLOTS && Unowned(pts, r) ensures ts'[i].regs.Get(b)[r].ctl == 0 {
      UpdatedUnowned(s, live, b, i, r, orig);
    }
  }

  // ----- targeting

  /** Enabled points for one thread are armed on that thread alone, and no register that has lost
      its point is armed. */
  predicate Targeted(ts: seq<Thread>, b: Bank, pts: seq<Point>) {
    && InBank(pts)
    && (forall i, k :: 0 <= i < |ts| && 0 <= k < |pts| && pts[k].reg != -1 && pts[k].target.Only? && pts[k].armed ==>
          Holds(ts[i].regs.Get(b)[pts[k].reg], pts[k], Targets(pts[k].target, ts[i])))
    && (forall i, r :: 0 <= i < |ts| && 0 <= r < NUM_SLOTS && Unowned(pts, r) ==> ts[i].regs.Get(b)[r].ctl == 0)
  }

  /** What is known of an updated bank. */
  ghost predicate Updated(ts0: seq<Thread>, live: seq<Live>, ts: seq<Thread>, b: Bank, pts: seq<Point>, ts': seq<Thread>) {
    && Numbered(ts) && UniqueTids(ts) && SameThreads(ts, ts') && |ts| == |live|
    && (forall i :: 0 <= i < |live| ==> ts[i].tid == live[i].tid)
    && DistinctRegs(pts) && Registers(ts0, live, b, pts, ts')
  }

  lemma UpdatedBank(s: State, live: seq<Live>, b: Bank, orig: Code)
    requires Inv(s, orig) && Churnable(s, live)
    ensures Updated(s.threads, live, Relisted(s, live).threads, b, PointsOf(s, b), ThreadUpdate(s, live).threads)
  {
    UpdatedRegisters(s, live, b, orig);
    RelistedNumbered(s, live);
    UpdateShape(Relisted(s, live));
    BankDistinct(s.threads, b, PointsOf(s, b));
    forall i | 0 <= i < |live| ensures Relisted(s, live).threads[i].tid == live[i].tid { RelistedAt(s, live, i); }
    hide Relisted, AdjustBps, AdjustWps, Registers, BankOk, CodeOk;
  }

  /** A point left is meant for a thread exactly if the TIDs agree. */
  lemma CurrentTargets(ts: seq<Thread>, ts': seq<Thread>, p: Point, i: nat)
    requires Numbered(ts) && UniqueTids(ts) && SameThreads(ts, ts') && i < |ts| && p.reg != -1 && Alive(ts, p)
    ensures Targets(Current(ts, p).target, ts'[i]) <==> AimsAt(p.target, ts[i].tid)
  {
  }

  /** The register of a point that is left. */
  lemma LeftHolds(ts0: seq<Thread>, live: seq<Live>, ts: seq<Thread>, b: Bank, pts: seq<Point>, ts': seq<Thread>, i: nat, j: nat)
    requires Updated(ts0, live, ts, b, pts, ts') && i < |live| && j < |AdjustedPoints(ts, pts)| && AdjustedPoints(ts, pts)[j].reg != -1
    ensures exists k :: 0 <= k < |pts| && pts[k].reg != -1 && AdjustedPoints(ts, pts)[j] == pts[k].(target := AdjustedPoints(ts, pts)[j].target)
              && Holds(ts'[i].regs.Get(b)[pts[k].reg], pts[k], Stands(ts0, live[i], pts[k], i))
              && (pts[k].target.All? <==> AdjustedPoints(ts, pts)[j].target.All?)
              && (Targets(AdjustedPoints(ts, pts)[j].target, ts'[i]) <==> AimsAt(pts[k].target, live[i].tid))
  {
    var k := PointFrom(ts, pts, j);
    CurrentTargets(ts, ts', pts[k], i);
    hide Stands, Holds, Targets, AimsAt, UniqueTids;
  }

  /** No register is armed that no point left owns: a point whose thread is gone stands nowhere. */
  lemma LeftUnowned(ts0: seq<Thread>, live: seq<Live>, ts: seq<Thread>, b: Bank, pts: seq<Point>, ts': seq<Thread>, i: nat, r: nat)
    requires Updated(ts0, live, ts, b, pts, ts') && i < |live| && r < NUM_SLOTS && Unowned(AdjustedPoints(ts, pts), r)
    ensures ts'[i].regs.Get(b)[r].ctl == 0
  {
    if !Unowned(pts, r) {
      var k :| 0 <= k < |pts| && pts[k].reg == r;
      if Alive(ts, pts[k]) {
        var j := PointKept(ts, pts, k);
        assert false;
      }
      assert ts[i].tid != pts[k].target.tid;
      assert Holds(ts'[i].regs.Get(b)[pts[k].reg], pts[k], Stands(ts0, live[i], pts[k], i));
    }
  }

  lemma LeftTargeted(ts0: seq<Thread>, live: seq<Live>, ts: seq<Thread>, b: Bank, pts: seq<Point>, ts': seq<Thread>)
    requires Updated(ts0, live, ts, b, pts, ts')
    ensures Targeted(ts', b, AdjustedPoints(ts, pts))
  {
    var pts' := AdjustedPoints(ts, pts);
    AdjustedDistinct(ts, pts);
    forall i, j | 0 <= i < |ts'| && 0 <= j < |pts'| && pts'[j].reg != -1 && pts'[j].target.Only? && pts'[j].armed
      ensures Holds(ts'[i].regs.Get(b)[pts'[j].reg], pts'[j], Targets(pts'[j].target, ts'[i]))
    {
      LeftHolds(ts0, live, ts, b, pts, ts', i, j);
    }
    forall i, r | 0 <= i < |ts'| && 0 <= r < NUM_SLOTS && Unowned(pts', r) ensures ts'[i].regs.Get(b)[r].ctl == 0 {
      LeftUnowned(ts0, live, ts, b, pts, ts', i, r);
    }
  }

  lemma PointsLeft(s: State, live: seq<Live>, orig: Code)
    requires Inv(s, orig) && KernelAgrees(s.threads, live)
    ensures var ts, s' := Relisted(s, live).threads, ThreadUpdate(s, live);
            BpPoints(s'.bps) == AdjustedPoints(ts, BpPoints(s.bps)) && WpPoints(s'.wps) == AdjustedPoints(ts, WpPoints(s.wps))
  {
    RelistedNumbered(s, live);
    UpdateShape(Relisted(s, live));
    hide Relisted, AdjustBps, AdjustWps, UniqueTids, BankOk, CodeOk;
    BpPointsAdjusted(Relisted(s, live).threads, s.bps);
    WpPointsAdjusted(Relisted(s, live).threads, s.wps);
  }

  /** Thread churn keeps targeting, whatever threads have come, gone and changed places: every
      register of every thread is known, the points left carry their TID's current ID and, if
      enabled, are armed on that thread alone, no register of a dead thread's point is armed, lists
      and code are sound, and some thread has the focus if there is any. */
  lemma ChurnKeepsTargeting(s: State, live: seq<Live>, orig: Code)
    requires Inv(s, orig) && Churnable(s, live)
    ensures var ts := Relisted(s, live).threads;
            var s' := ThreadUpdate(s, live);
            && ListsOk(s', orig) && SameThreads(ts, s'.threads)
            && s'.bps == AdjustedBps(ts, s.bps) && s'.wps == AdjustedWps(ts, s.wps)
            && AllAimed(s'.threads, BpPoints(s'.bps)) && AllAimed(s'.threads, WpPoints(s'.wps))
            && Targeted(s'.threads, Breaks, BpPoints(s'.bps)) && Targeted(s'.threads, Watches, WpPoints(s'.wps))
            && (forall b: Bank :: Registers(s.threads, live, b, PointsOf(s, b), s'.threads))
            && (live != [] ==> FirstFocused(ts) < |live|)
  {
    var ts, s' := Relisted(s, live).threads, ThreadUpdate(s, live);
    UpdateKeepsLists(s, live, orig);
    RefocusMoves(UpdateThreads(s, live).threads);
    RelistedNumbered(s, live);
    UpdateShape(Relisted(s, live));
    PointsLeft(s, live, orig);
    hide Refocus, AdjustBps, AdjustWps, Targeted, Registers, AllAimed, UniqueTids, FirstFocused, Find, BankOk, Shaped, CodeOk, UpdateThreads;
    AdjustedAimed(ts, s'.threads, BpPoints(s.bps));
    AdjustedAimed(ts, s'.threads, WpPoints(s.wps));
    forall b: Bank ensures Registers(s.threads, live, b, PointsOf(s, b), s'.threads) && Targeted(s'.threads, b, AdjustedPoints(ts, PointsOf(s, b))) {
      UpdatedBank(s, live, b, orig);
      LeftTargeted(s.threads, live, ts, b, PointsOf(s, b), s'.threads);
    }
    assert Targeted(s'.threads, Breaks, AdjustedPoints(ts, PointsOf(s, Breaks)));
    assert Targeted(s'.threads, Watches, AdjustedPoints(ts, PointsOf(s, Watches)));
  }

  // ----- exactly when the engine's invariant is kept

  /** The word of every point stands where it is meant to and nowhere else. */
  predicate AsMeant(ts: seq<Thread>, live: seq<Live>, pts: seq<Point>) {
    forall i, k :: 0 <= i < |live| && 0 <= k < |pts| && pts[k].reg != -1 ==> Stands(ts, live[i], pts[k], i) == Meant(live[i], pts[k])
  }

  /** Every control word has its enable bit set. */
  predicate ControlsSet(pts: seq<Point>) {
    forall k :: 0 <= k < |pts| && pts[k].reg != -1 ==> pts[k].slot.ctl != 0
  }

  lemma MeantKeepsBank(ts0: seq<Thread>, live: seq<Live>, ts: seq<Thread>, b: Bank, pts: seq<Point>, ts': seq<Thread>)
    requires Updated(ts0, live, ts, b, pts, ts') && AsMeant(ts0, live, pts)
    ensures BankOk(ts', b, AdjustedPoints(ts, pts))
  {
    var pts' := AdjustedPoints(ts, pts);
    AdjustedDistinct(ts, pts);
    forall i, j | 0 <= i < |ts'| && 0 <= j < |pts'| && pts'[j].reg != -1
      ensures Holds(ts'[i].regs.Get(b)[pts'[j].reg], pts'[j], pts'[j].armed && Targets(pts'[j].target, ts'[i]))
    {
      LeftHolds(ts0, live, ts, b, pts, ts', i, j);
    }
    forall i, r | 0 <= i < |ts'| && 0 <= r < NUM_SLOTS && Unowned(pts', r) ensures ts'[i].regs.Get(b)[r].ctl == 0 {
      LeftUnowned(ts0, live, ts, b, pts, ts', i, r);
    }
    BankFromHolds(ts', b, pts');
  }

  lemma BankKeepsMeant(ts0: seq<Thread>, live: seq<Live>, ts: seq<Thread>, b: Bank, pts: seq<Point>, ts': seq<Thread>)
    requires Updated(ts0, live, ts, b, pts, ts') && ControlsSet(pts) && BankOk(ts', b, AdjustedPoints(ts, pts))
    ensures AsMeant(ts0, live, pts)
  {
    forall i, k | 0 <= i < |live| && 0 <= k < |pts| && pts[k].reg != -1
      ensures Stands(ts0, live[i], pts[k], i) == Meant(live[i], pts[k])
    {
      assert Holds(ts'[i].regs.Get(b)[pts[k].reg], pts[k], Stands(ts0, live[i], pts[k], i));
      if Alive(ts, pts[k]) {
        var j := PointKept(ts, pts, k);
        CurrentTargets(ts, ts', pts[k], i);
        HoldsFromBank(ts', b, AdjustedPoints(ts, pts), i, j);
      } else {
        assert ts[i].tid != pts[k].target.tid;
      }
    }
  }

  /** The disabled breakpoint `b` is written into the i-th thread's registers as if it were enabled. */
  predicate RearmedAt(ts: seq<Thread>, l: Live, b: Bp, i: nat) {
    b.hw && b.disabled && if b.target.All? then TakenForNew(ts, i) else b.target.tid == l.tid && b.target.id != i + 1
  }

  /** That happens to one for all threads while threads are added, and to one whose thread is still
      there under another ID. */
  ghost predicate Rearmed(ts: seq<Thread>, live: seq<Live>, b: Bp) {
    exists i :: 0 <= i < |live| && RearmedAt(ts, live[i], b, i)
  }

  lemma RearmedForAllIff(ts: seq<Thread>, live: seq<Live>, b: Bp)
    requires b.hw && b.disabled && b.target.All?
    ensures Rearmed(ts, live, b) <==> ts != [] && |live| > |ts|
  {
    if ts != [] && |live| > |ts| { assert RearmedAt(ts, live[|ts|], b, |ts|); }
  }

  predicate OverlookedAt(ts: seq<Thread>, l: Live, i: nat) {
    !Seen(ts, l) && !TakenForNew(ts, i)
  }

  /** A thread the debugger has not seen stands where it is not taken for new. */
  ghost predicate Overlooked(ts: seq<Thread>, live: seq<Live>) {
    exists i :: 0 <= i < |live| && OverlookedAt(ts, live[i], i)
  }

  predicate BpForAll(b: Bp) {
    b.hw && !b.disabled && b.target.All?
  }

  /** An enabled point for all threads is listed that needs registers. */
  predicate ForAll(s: State) {
    (exists k :: 0 <= k < |s.bps| && BpForAll(s.bps[k])) || (exists k :: 0 <= k < |s.wps| && s.wps[k].target.All?)
  }

  lemma BreakAsMeantIff(ts: seq<Thread>, l: Live, b: Bp, i: nat)
    requires b.hw
    ensures Stands(ts, l, PointOf(b), i) == Meant(l, PointOf(b)) <==> !RearmedAt(ts, l, b, i) && !(OverlookedAt(ts, l, i) && BpForAll(b))
  {
  }

  lemma BreaksAsMeantIff(s: State, live: seq<Live>)
    requires forall k :: 0 <= k < |s.bps| ==> (s.bps[k].hw <==> s.bps[k].reg != -1)
    ensures AsMeant(s.threads, live, BpPoints(s.bps)) <==>
      forall i, k :: 0 <= i < |live| && 0 <= k < |s.bps| ==>
        !RearmedAt(s.threads, live[i], s.bps[k], i) && !(OverlookedAt(s.threads, live[i], i) && BpForAll(s.bps[k]))
  {
    var pts := BpPoints(s.bps);
    assert forall k :: 0 <= k < |pts| ==> (pts[k].reg != -1 <==> s.bps[k].hw) && (s.bps[k].hw ==> pts[k] == PointOf(s.bps[k]));
    forall i, k | 0 <= i < |live| && 0 <= k < |s.bps|
      ensures (s.bps[k].hw ==> Stands(s.threads, live[i], pts[k], i) == Meant(live[i], pts[k])) <==>
        !RearmedAt(s.threads, live[i], s.bps[k], i) && !(OverlookedAt(s.threads, live[i], i) && BpForAll(s.bps[k]))
    {
      if s.bps[k].hw { BreakAsMeantIff(s.threads, live[i], s.bps[k], i); }
    }
    hide Stands, Meant, OverlookedAt, BpPoints;
  }

  lemma WatchesAsMeantIff(s: State, live: seq<Live>)
    requires forall k :: 0 <= k < |s.wps| ==> s.wps[k].reg != -1
    ensures AsMeant(s.threads, live, WpPoints(s.wps)) <==>
      forall i, k :: 0 <= i < |live| && 0 <= k < |s.wps| ==> !(OverlookedAt(s.threads, live[i], i) && s.wps[k].target.All?)
  {
    var pts := WpPoints(s.wps);
    forall i, k | 0 <= i < |live| && 0 <= k < |s.wps|
      ensures Stands(s.threads, live[i], pts[k], i) == Meant(live[i], pts[k]) <==> !(OverlookedAt(s.threads, live[i], i) && s.wps[k].target.All?)
    {
    }
    hide Stands, Meant, OverlookedAt, WpPoints;
  }

  /** Both together, said of lists. */
  lemma AllAsMeantIff(s: State, live: seq<Live>)
    requires Shaped(s)
    ensures AsMeant(s.threads, live, BpPoints(s.bps)) && AsMeant(s.threads, live, WpPoints(s.wps)) <==>
      (forall k :: 0 <= k < |s.bps| ==> !Rearmed(s.threads, live, s.bps[k])) && !(Overlooked(s.threads, live) && ForAll(s))
  {
    BreaksAsMeantIff(s, live);
    WatchesAsMeantIff(s, live);
    hide AsMeant, RearmedAt, OverlookedAt, BpForAll, Shaped, BpPoints, WpPoints;
  }

  /** Every word the debugger builds is a set one. */
  lemma NewControlsSet(s: State, loc: nat, len: nat, lsc: nat, readable: bool, temporary: bool, stepping: bool, thread: int)
    ensures KnownThread(s.threads, thread) ==> var b := MakeBp(s, loc, temporary, stepping, thread); b.hw ==> b.slot.ctl != 0
    ensures GoodWatch(s, len, lsc, thread, readable) ==> MakeWp(s, loc, len, lsc, thread, readable).slot.ctl != 0
  {
  }

  /** The exact condition: an update keeps the engine's invariant if and only if no disabled hardware
      breakpoint is written into registers on the way, and no unseen thread is taken for an old one
      while an enabled point for all threads is listed. */
  lemma ChurnKeepsIff(s: State, live: seq<Live>, orig: Code)
    requires Inv(s, orig) && Churnable(s, live) && ControlsSet(BpPoints(s.bps)) && ControlsSet(WpPoints(s.wps))
    ensures Inv(ThreadUpdate(s, live), orig) <==>
      (forall k :: 0 <= k < |s.bps| ==> !Rearmed(s.threads, live, s.bps[k])) && !(Overlooked(s.threads, live) && ForAll(s))
  {
    var ts, s' := Relisted(s, live).threads, ThreadUpdate(s, live);
    var bpts, wpts := BpPoints(s.bps), WpPoints(s.wps);
    AllAsMeantIff(s, live);
    UpdateKeepsLists(s, live, orig);
    PointsLeft(s, live, orig);
    UpdatedBank(s, live, Breaks, orig);
    UpdatedBank(s, live, Watches, orig);
    hide Relisted, ThreadUpdate, BpPoints, WpPoints, AsMeant, Updated, BankOk, ControlsSet, Overlooked, ForAll, Rearmed, Churnable, Shaped, CodeOk;
    if AsMeant(s.threads, live, bpts) && AsMeant(s.threads, live, wpts) {
      MeantKeepsBank(s.threads, live, ts, Breaks, bpts, s'.threads);
      MeantKeepsBank(s.threads, live, ts, Watches, wpts, s'.threads);
    }
    if Inv(s', orig) {
      BankKeepsMeant(s.threads, live, ts, Breaks, bpts, s'.threads);
      BankKeepsMeant(s.threads, live, ts, Watches, wpts, s'.threads);
    }
  }

  predicate Blank(bank: SlotBank) {
    forall r :: 0 <= r < NUM_SLOTS ==> bank[r].ctl == 0
  }

  /** The only thread has one breakpoint for all threads in its register 0. */
  function OneForAll(blank: SlotBank, slot: Slot): State {
    State([Bp(1, 0, Fetch(map[], 0), 0, false, false, true, 0, false, All, slot)], [],
          [Thread(1, 1, 1, true, DebugRegs(blank[0 := slot], blank, false), NO_FLAGS)], map[], 2, 1, 1, 0, 1, 0)
  }

  lemma OneForAllInv(blank: SlotBank, slot: Slot)
    requires Blank(blank)
    ensures Inv(OneForAll(blank, slot), map[])
  {
    var s := OneForAll(blank, slot);
    assert BpPoints(s.bps) == [Point(0, All, true, slot)] && WpPoints(s.wps) == [];
    assert BpPoints(s.bps)[0].reg == 0;
    BankFromHolds(s.threads, Breaks, BpPoints(s.bps));
    BankFromHolds(s.threads, Watches, WpPoints(s.wps));
  }

  /** One thread dies and another is born between two updates: the breakpoint misses the new one. */
  lemma ReplacedThreadIsMissed(blank: SlotBank, slot: Slot)
    requires Blank(blank) && slot.ctl != 0
    ensures var s, live := OneForAll(blank, slot), [Live(2, 2, DebugRegs(blank, blank, false))];
            Inv(s, map[]) && Churnable(s, live) && !Inv(ThreadUpdate(s, live), map[])
  {
    var s, live := OneForAll(blank, slot), [Live(2, 2, DebugRegs(blank, blank, false))];
    OneForAllInv(blank, slot);
    assert BpForAll(s.bps[0]) && OverlookedAt(s.threads, live[0], 0);
    assert Overlooked(s.threads, live) && ForAll(s) && Churnable(s, live);
    hide Inv, ThreadUpdate, Overlooked, ForAll, Churnable;
    ChurnKeepsIff(s, live, map[]);
  }
}
