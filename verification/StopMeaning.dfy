/** What every exception does, on any number of threads with any points: the verdict, the hits and the
    breakpoints left, and the notes of the thread, said of the lists alone. */
module StopMeaning {
  import opened Engine
  import opened Stops

  // ----- what is looked for

  /** The `k`-th is the first ordinary breakpoint at the address. */
  predicate FirstOrdinary(bps: seq<Bp>, a: nat, k: int) {
    && 0 <= k < |bps| && bps[k].location == a && !bps[k].temporary && !bps[k].stepping
    && forall j :: 0 <= j < k ==> bps[j].location != a || bps[j].temporary || bps[j].stepping
  }

  predicate FirstStepping(bps: seq<Bp>, a: nat, k: int) {
    && 0 <= k < |bps| && bps[k].location == a && bps[k].stepping
    && forall j :: 0 <= j < k ==> bps[j].location != a || !bps[j].stepping
  }

  predicate FirstNumbered(bps: seq<Bp>, id: int, k: int) {
    0 <= k < |bps| && bps[k].id == id && forall j :: 0 <= j < k ==> bps[j].id != id
  }

  predicate FirstWatching(wps: seq<Wp>, aligned: nat, k: int) {
    0 <= k < |wps| && wps[k].aligned == aligned && forall j :: 0 <= j < k ==> wps[j].aligned != aligned
  }

  lemma OrdinaryIs(bps: seq<Bp>, a: nat, k: int)
    ensures FirstOrdinary(bps, a, k) <==> k < |bps| && k == First(bps, NormalAt(a))
  {
  }

  lemma SteppingIs(bps: seq<Bp>, a: nat, k: int)
    ensures FirstStepping(bps, a, k) <==> k < |bps| && k == First(bps, SteppingAt(a))
  {
  }

  lemma NumberedIs(bps: seq<Bp>, id: int, k: int)
    ensures FirstNumbered(bps, id, k) <==> k < |bps| && k == First(bps, WithId(id))
  {
  }

  // ----- what stays

  /** Breakpoint registers aside, only thread `ti` changes, and of it only the step bit and the notes. */
  predicate ThreadsKept(ts: seq<Thread>, ts': seq<Thread>, ti: nat, step: bool, fl: Flags) {
    && |ts'| == |ts|
    && forall i :: 0 <= i < |ts| ==>
         ts'[i] == ts[i].(regs := ts[i].regs.(breaks := ts'[i].regs.breaks, step := if i == ti then step else ts[i].regs.step),
                          fl := if i == ti then fl else ts[i].fl)
  }

  /** Lists, code and breakpoint registers aside, nothing else changes. */
  predicate Rest(s: State, s': State, ti: nat, step: bool, fl: Flags) {
    && ThreadsKept(s.threads, s'.threads, ti, step, fl)
    && s' == s.(bps := s'.bps, code := s'.code, threads := s'.threads, numBps := s'.numBps)
    && s'.numBps - |s'.bps| == s.numBps - |s.bps|
  }

  predicate Same(s: State, s': State, ti: nat)
    requires ti < |s.threads|
  {
    Rest(s, s', ti, s.threads[ti].regs.step, s.threads[ti].fl)
  }

  lemma SetStateLeaves(s: State, k: nat, d: bool, ti: nat)
    requires k < |s.bps| && ti < |s.threads|
    ensures Same(s, SetState(s, k, d), ti) && SetState(s, k, d).bps == s.bps[k := s.bps[k].(disabled := d)]
  {
  }

  lemma DeleteAtLeaves(s: State, k: nat, ti: nat)
    requires k < |s.bps| && ti < |s.threads|
    ensures Same(s, DeleteAt(s, k), ti) && DeleteAt(s, k).bps == s.bps[..k] + s.bps[k + 1..]
  {
    SetStateLeaves(s, k, true, ti);
  }

  lemma RestThen(s: State, s1: State, s': State, ti: nat, step1: bool, fl1: Flags, step: bool, fl: Flags)
    requires ti < |s.threads| && Rest(s, s1, ti, step1, fl1) && Rest(s1, s', ti, step, fl)
    ensures Rest(s, s', ti, step, fl)
  {
  }

  lemma FlagsLeave(s: State, ti: nat, fl: Flags)
    requires ti < |s.threads|
    ensures Rest(s, WithFlags(s, ti, fl), ti, s.threads[ti].regs.step, fl)
  {
  }

  lemma RestHas(s: State, s': State, ti: nat, step: bool, fl: Flags)
    requires ti < |s.threads| && Rest(s, s', ti, step, fl)
    ensures |s'.threads| == |s.threads| && s'.threads[ti].fl == fl && s'.threads[ti].regs.step == step && s'.threads[ti].tid == s.threads[ti].tid
  {
  }

  lemma {:induction false} SetStatesLeave(s: State, c: Choice, d: bool, k: nat, ti: nat)
    requires k <= |s.bps| && ti < |s.threads|
    ensures Same(s, SetStates(s, c, d, k), ti)
    ensures forall i :: 0 <= i < |s.bps| ==>
              SetStates(s, c, d, k).bps[i] == if k <= i && Chosen(c, s.bps[i]) then s.bps[i].(disabled := d) else s.bps[i]
    decreases |s.bps| - k
  {
    if k < |s.bps| {
      var s1 := SetChosen(s, c, d, k);
      if Chosen(c, s.bps[k]) { SetStateLeaves(s, k, d, ti); }
      SetStatesLeave(s1, c, d, k + 1, ti);
      RestThen(s, s1, SetStates(s, c, d, k), ti, s.threads[ti].regs.step, s.threads[ti].fl, s1.threads[ti].regs.step, s1.threads[ti].fl);
    }
  }

  // ----- watchpoints

  /** An access to watched data is noted, and the thread goes on by one instruction. */
  lemma AccessNoted(s: State, ti: nat, a: nat, pc: nat)
    requires ti < |s.threads|
    ensures var o := Handle(s, ti, WatchHit(a), pc);
      o.resume && o.s.bps == s.bps && o.s.code == s.code && Rest(s, o.s, ti, true, s.threads[ti].fl.(justHitWp := true, lastWpLoc := a))
  {
  }

  /** The first watchpoint on the double word of `loc` counts the hit, if there is one. */
  predicate WatchCounted(wps: seq<Wp>, wps': seq<Wp>, loc: nat) {
    && |wps'| == |wps|
    && forall i :: 0 <= i < |wps| ==> wps'[i] == wps[i].(hits := wps[i].hits + if FirstWatching(wps, loc - loc % 8, i) then 1 else 0)
  }

  predicate NoneWatching(wps: seq<Wp>, loc: nat) {
    forall j :: 0 <= j < |wps| ==> wps[j].aligned != loc - loc % 8
  }

  lemma WatchingIs(wps: seq<Wp>, loc: nat)
    ensures var k := FirstWpAt(wps, loc - loc % 8);
      if k == |wps| then NoneWatching(wps, loc) && WatchCounted(wps, wps, loc)
      else !NoneWatching(wps, loc) && WatchCounted(wps, wps[k := wps[k].(hits := wps[k].hits + 1)], loc)
  {
    var k := FirstWpAt(wps, loc - loc % 8);
    if k < |wps| { assert wps[k].aligned == loc - loc % 8; }
  }

  /** The verdict, the hits and the notes `fl`. */
  predicate WatchOutcome(s: State, ti: nat, fl: Flags, loc: nat, o: Outcome)
    requires ti < |s.threads|
  {
    && (o.resume <==> NoneWatching(s.wps, loc)) && WatchCounted(s.wps, o.s.wps, loc)
    && o.s == s.(wps := o.s.wps, threads := o.s.threads)
    && ThreadsKept(s.threads, o.s.threads, ti, s.threads[ti].regs.step, fl.(lastWpLoc := if o.resume then loc else 0))
  }

  lemma NotesReplaced(ts: seq<Thread>, ts1: seq<Thread>, ti: nat, step: bool, fl: Flags, fl': Flags)
    requires ti < |ts| && ThreadsKept(ts, ts1, ti, step, fl)
    ensures ts1[ti].fl == fl && ThreadsKept(ts, ts1[ti := ts1[ti].(fl := fl')], ti, step, fl')
  {
  }

  lemma WatchHandled(s: State, ti: nat)
    requires ti < |s.threads|
    ensures WatchOutcome(s, ti, s.threads[ti].fl, s.threads[ti].fl.lastWpLoc, HandleWatch(s, ti))
  {
    var fl, ts, st := s.threads[ti].fl, s.threads, s.threads[ti].regs.step;
    WatchingIs(s.wps, fl.lastWpLoc);
    assert ThreadsKept(ts, ts, ti, st, fl);
    NotesReplaced(ts, ts, ti, st, fl, fl.(lastWpLoc := 0));
    hide FirstWpAt, WatchCounted, NoneWatching, ThreadsKept;
  }

  lemma WatchEnds(s: State, ti: nat, fl: Flags, loc: nat, o: Outcome)
    requires ti < |s.threads| && WatchOutcome(s, ti, fl, loc, o)
    ensures |o.s.threads| == |s.threads| && o.s.threads[ti].fl == fl.(lastWpLoc := if o.resume then loc else 0)
    ensures WatchOutcome(s, ti, fl.(justHitWp := false), loc, Outcome(WithFlags(o.s, ti, o.s.threads[ti].fl.(justHitWp := false)), o.resume))
  {
    var fl1 := fl.(lastWpLoc := if o.resume then loc else 0);
    assert |o.s.threads| == |s.threads|;
    NotesReplaced(s.threads, o.s.threads, ti, s.threads[ti].regs.step, fl1, fl1.(justHitWp := false));
    hide WatchCounted, NoneWatching, ThreadsKept;
  }

  /** The step behind it: the first watchpoint on the double word counts the hit and the debuggee stops;
      it goes on if there is none. */
  lemma AccessCounted(s: State, ti: nat, pc: nat)
    requires ti < |s.threads| && s.threads[ti].fl.justHitWp
    ensures WatchOutcome(s, ti, s.threads[ti].fl.(justHitWp := false), s.threads[ti].fl.lastWpLoc, Handle(s, ti, Break(0), pc))
  {
    hide WatchOutcome, StepStop, HandleWatch, WithFlags;
    WatchHandled(s, ti);
    WatchEnds(s, ti, s.threads[ti].fl, s.threads[ti].fl.lastWpLoc, HandleWatch(s, ti));
  }

  // ----- breakpoints

  /** The ordinary breakpoint at the address is a software one meant for another thread. */
  ghost predicate PassedBy(bps: seq<Bp>, a: nat, tid: nat) {
    exists k :: FirstOrdinary(bps, a, k) && !bps[k].hw && bps[k].target.Only? && bps[k].target.tid != tid
  }

  ghost predicate AnyOrdinary(bps: seq<Bp>, a: nat) {
    exists k :: FirstOrdinary(bps, a, k)
  }

  ghost predicate AnyStepping(bps: seq<Bp>, a: nat) {
    exists k :: FirstStepping(bps, a, k)
  }

  /** A hit breakpoint goes away if it is temporary, else counts the hit. */
  function SteppedOn(bps: seq<Bp>, q: nat): seq<Bp>
    requires q < |bps|
  {
    if bps[q].temporary then bps[..q] + bps[q + 1..] else bps[q := bps[q].(hits := bps[q].hits + 1)]
  }

  /** A temporary breakpoint for steps goes away when it is hit. */
  ghost predicate SteppingGone(bps: seq<Bp>, bps': seq<Bp>, a: nat) {
    if AnyStepping(bps, a) then
      exists k :: FirstStepping(bps, a, k) && bps' == SteppedOn(bps, k)
    else bps' == bps
  }

  /** The ordinary breakpoint at the address counts the hit, if it is for thread `tid`, and the first with the
      number of a software one is disabled. */
  ghost predicate HitCounted(bps: seq<Bp>, bps': seq<Bp>, a: nat, tid: nat) {
    && |bps'| == |bps|
    && forall i :: 0 <= i < |bps| ==>
         bps'[i] == bps[i].(hits := bps[i].hits + (if FirstOrdinary(bps, a, i) && !PassedBy(bps, a, tid) then 1 else 0),
                            disabled := bps[i].disabled || (!PassedBy(bps, a, tid) && Silenced(bps, a, i)))
  }

  ghost predicate Silenced(bps: seq<Bp>, a: nat, i: int) {
    exists k :: FirstOrdinary(bps, a, k) && !bps[k].hw && FirstNumbered(bps, bps[k].id, i)
  }

  /** The thread's notes of the ordinary breakpoint. */
  ghost predicate HitNoted(bps: seq<Bp>, a: nat, tid: nat, fl: Flags, fl': Flags) {
    && fl' == fl.(lastBpId := fl'.lastBpId, justHitSw := fl'.justHitSw)
    && (if PassedBy(bps, a, tid) || !AnyOrdinary(bps, a) then fl'.lastBpId == fl.lastBpId && fl'.justHitSw == fl.justHitSw
        else exists k :: FirstOrdinary(bps, a, k) && fl'.lastBpId == bps[k].id && fl'.justHitSw == (fl.justHitSw || !bps[k].hw))
  }

  /** The notes behind a stepping breakpoint. */
  ghost function Stepped(bps: seq<Bp>, a: nat, fl: Flags): Flags {
    fl.(justHitSs := fl.justHitSs || AnyStepping(bps, a), setTempSs := fl.setTempSs && !AnyStepping(bps, a))
  }

  lemma HitAtLeaves(s: State, k: nat, ti: nat)
    requires k < |s.bps| && ti < |s.threads|
    ensures Same(s, HitAt(s, k), ti)
    ensures HitAt(s, k).bps == SteppedOn(s.bps, k)
  {
    if s.bps[k].temporary { DeleteAtLeaves(s, k, ti); }
  }

  lemma StepOutOf(s: State, ti: nat, a: nat)
    requires ti < |s.threads|
    ensures var k := First(s.bps, SteppingAt(a));
      var s1 := if k == |s.bps| then s else SteppingHit(s, ti, k);
      SteppingGone(s.bps, s1.bps, a) && Rest(s, s1, ti, s.threads[ti].regs.step, Stepped(s.bps, a, s.threads[ti].fl))
  {
    var k := First(s.bps, SteppingAt(a));
    forall j ensures FirstStepping(s.bps, a, j) <==> j < |s.bps| && j == k { SteppingIs(s.bps, a, j); }
    if k < |s.bps| {
      HitAtLeaves(s, k, ti);
      assert FirstStepping(s.bps, a, k);
      var s0 := HitAt(s, k);
      assert s0.threads[ti].fl == s.threads[ti].fl;
      hide HitAt, FirstStepping, First;
      assert SteppingHit(s, ti, k).bps == SteppedOn(s.bps, k);
    } else { assert !AnyStepping(s.bps, a); }
  }

  /** Where the `k`-th breakpoint is when the `q`-th, a stepping one, has been hit. */
  function Moved(bps: seq<Bp>, q: nat, k: int): int
    requires q < |bps|
  {
    if bps[q].temporary && k > q then k - 1 else k
  }

  lemma OrdinaryMoves(bps: seq<Bp>, q: nat, a: nat, k: int)
    requires q < |bps| && bps[q].stepping && FirstOrdinary(bps, a, k)
    ensures var bps', k' := SteppedOn(bps, q), Moved(bps, q, k); FirstOrdinary(bps', a, k') && bps'[k'] == bps[k]
  {
  }

  lemma OrdinaryWas(bps: seq<Bp>, q: nat, a: nat)
    requires q < |bps| && bps[q].stepping && AnyOrdinary(SteppedOn(bps, q), a)
    ensures AnyOrdinary(bps, a)
  {
    var bps' := SteppedOn(bps, q);
    var k' :| FirstOrdinary(bps', a, k');
    var k := if bps[q].temporary && k' >= q then k' + 1 else k';
    assert bps[k] == bps'[k'];
    var f := First(bps, NormalAt(a));
    assert f <= k;
    OrdinaryIs(bps, a, f);
  }

  lemma OneOrdinary(bps: seq<Bp>, a: nat, j: int, k: int)
    requires FirstOrdinary(bps, a, j) && FirstOrdinary(bps, a, k)
    ensures j == k
  {
  }

  /** What has become of the stepping breakpoint does not matter to the ordinary ones. */
  lemma OrdinaryStays(bps: seq<Bp>, bps': seq<Bp>, a: nat, tid: nat, fl: Flags, fl': Flags)
    requires SteppingGone(bps, bps', a)
    ensures AnyOrdinary(bps', a) <==> AnyOrdinary(bps, a)
    ensures PassedBy(bps', a, tid) <==> PassedBy(bps, a, tid)
    ensures HitNoted(bps', a, tid, fl, fl') <==> HitNoted(bps, a, tid, fl, fl')
  {
    if AnyStepping(bps, a) {
      var q :| FirstStepping(bps, a, q) && bps' == SteppedOn(bps, q);
      if AnyOrdinary(bps', a) { OrdinaryWas(bps, q, a); }
      if AnyOrdinary(bps, a) {
        var k :| FirstOrdinary(bps, a, k);
        OrdinaryMoves(bps, q, a, k);
        forall j | FirstOrdinary(bps', a, j) ensures j == Moved(bps, q, k) { OneOrdinary(bps', a, j, Moved(bps, q, k)); }
        forall j | FirstOrdinary(bps, a, j) ensures j == k { OneOrdinary(bps, a, j, k); }
      }
      hide FirstOrdinary, FirstStepping, SteppedOn;
    }
  }

  lemma SameNumbers(bps: seq<Bp>, bps': seq<Bp>, id: int, i: int)
    requires |bps'| == |bps| && forall j :: 0 <= j < |bps| ==> bps'[j].id == bps[j].id
    ensures FirstNumbered(bps', id, i) <==> FirstNumbered(bps, id, i)
  {
  }

  lemma Onward(s: State, ti: nat, k: nat)
    requires ti < |s.threads| && k < |s.bps| && s.bps[k].Normal()
    ensures var b, s' := s.bps[k], NormalHit(s, ti, k);
      && Rest(s, s', ti, s.threads[ti].regs.step, s.threads[ti].fl.(lastBpId := b.id, justHitSw := s.threads[ti].fl.justHitSw || !b.hw))
      && |s'.bps| == |s.bps|
      && forall i :: 0 <= i < |s.bps| ==>
           s'.bps[i] == s.bps[i].(hits := s.bps[i].hits + (if i == k then 1 else 0), disabled := s.bps[i].disabled || (!b.hw && FirstNumbered(s.bps, b.id, i)))
  {
    var b, st, fl := s.bps[k], s.threads[ti].regs.step, s.threads[ti].fl;
    HitAtLeaves(s, k, ti);
    var s1 := HitAt(s, k);
    RestHas(s, s1, ti, st, fl);
    forall i ensures FirstNumbered(s1.bps, b.id, i) <==> FirstNumbered(s.bps, b.id, i) { SameNumbers(s.bps, s1.bps, b.id, i); }
    if b.hw {
      FlagsLeave(s1, ti, fl.(lastBpId := b.id));
      RestThen(s, s1, NormalHit(s, ti, k), ti, st, fl, st, fl.(lastBpId := b.id));
    } else { Silencing(s, s1, ti, k); }
    hide Rest, FirstNumbered, HitAt, SetStateById, First;
  }

  lemma Silencing(s: State, s1: State, ti: nat, k: nat)
    requires ti < |s.threads| && k < |s.bps| && s.bps[k].Normal() && !s.bps[k].hw
    requires s1 == HitAt(s, k) && Same(s, s1, ti) && s1.threads[ti].fl == s.threads[ti].fl && s1.threads[ti].regs.step == s.threads[ti].regs.step
    requires |s1.bps| == |s.bps| && s1.bps[k].id == s.bps[k].id
    ensures var b, s' := s.bps[k], NormalHit(s, ti, k);
      && Rest(s, s', ti, s.threads[ti].regs.step, s.threads[ti].fl.(lastBpId := b.id, justHitSw := true))
      && |s'.bps| == |s.bps|
      && forall i :: 0 <= i < |s.bps| ==> s'.bps[i] == s1.bps[i].(disabled := s1.bps[i].disabled || FirstNumbered(s1.bps, b.id, i))
  {
    var b, st, fl := s.bps[k], s.threads[ti].regs.step, s.threads[ti].fl;
    var j := First(s1.bps, WithId(b.id));
    forall i ensures FirstNumbered(s1.bps, b.id, i) <==> i < |s1.bps| && i == j { NumberedIs(s1.bps, b.id, i); }
    var s2 := WithFlags(s1, ti, fl.(justHitSw := true));
    FlagsLeave(s1, ti, fl.(justHitSw := true));
    SetStateLeaves(s2, j, true, ti);
    var s3 := SetState(s2, j, true);
    RestHas(s2, s3, ti, st, fl.(justHitSw := true));
    FlagsLeave(s3, ti, fl.(lastBpId := b.id, justHitSw := true));
    var s' := NormalHit(s, ti, k);
    assert s' == WithFlags(s3, ti, fl.(lastBpId := b.id, justHitSw := true));
    hide Rest, FirstNumbered, HitAt, SetState, First, NormalHit;
    RestThen(s, s1, s2, ti, st, fl, st, fl.(justHitSw := true));
    RestThen(s, s2, s3, ti, st, fl.(justHitSw := true), st, fl.(justHitSw := true));
    RestThen(s, s3, s', ti, st, fl.(justHitSw := true), st, fl.(lastBpId := b.id, justHitSw := true));
  }

  lemma PassedAt(bps: seq<Bp>, a: nat, tid: nat, k: nat)
    requires FirstOrdinary(bps, a, k)
    ensures PassedBy(bps, a, tid) <==> !bps[k].hw && bps[k].target.Only? && bps[k].target.tid != tid
    ensures forall j :: FirstOrdinary(bps, a, j) <==> j == k
  {
  }

  lemma CountedAt(bps: seq<Bp>, bps': seq<Bp>, a: nat, tid: nat, k: nat)
    requires FirstOrdinary(bps, a, k) && !PassedBy(bps, a, tid) && |bps'| == |bps|
    requires forall i :: 0 <= i < |bps| ==>
      bps'[i] == bps[i].(hits := bps[i].hits + (if i == k then 1 else 0), disabled := bps[i].disabled || (!bps[k].hw && FirstNumbered(bps, bps[k].id, i)))
    ensures HitCounted(bps, bps', a, tid)
  {
    PassedAt(bps, a, tid, k);
    hide FirstOrdinary, FirstNumbered, PassedBy;
  }

  lemma NotedAt(bps: seq<Bp>, a: nat, tid: nat, k: nat, fl: Flags)
    requires FirstOrdinary(bps, a, k) && !PassedBy(bps, a, tid)
    ensures HitNoted(bps, a, tid, fl, fl.(lastBpId := bps[k].id, justHitSw := fl.justHitSw || !bps[k].hw))
  {
    hide FirstOrdinary, PassedBy;
  }

  /** Nothing is counted for a breakpoint that is not there or passed by. */
  lemma LetPass(bps: seq<Bp>, a: nat, tid: nat, fl: Flags)
    requires PassedBy(bps, a, tid) || !AnyOrdinary(bps, a)
    ensures HitCounted(bps, bps, a, tid) && HitNoted(bps, a, tid, fl, fl)
  {
  }

  ghost predicate ListedOutcome(s: State, ti: nat, a: nat, o: Outcome)
    requires ti < |s.threads| == |o.s.threads|
  {
    var t, fl := s.threads[ti], o.s.threads[ti].fl;
    && (o.resume <==> PassedBy(s.bps, a, t.tid)) && HitCounted(s.bps, o.s.bps, a, t.tid)
    && Rest(s, o.s, ti, t.regs.step, fl) && HitNoted(s.bps, a, t.tid, t.fl, fl)
  }

  lemma ListedIs(s: State, ti: nat, a: nat)
    requires ti < |s.threads|
    ensures ListedOutcome(s, ti, a, ListedHit(s, ti, a))
  {
    var k, tid, fl := First(s.bps, NormalAt(a)), s.threads[ti].tid, s.threads[ti].fl;
    OrdinaryIs(s.bps, a, k);
    if k == |s.bps| {
      AnyIs(s.bps, a);
      LetPass(s.bps, a, tid, fl);
    } else {
      PassedAt(s.bps, a, tid, k);
      if PassedBy(s.bps, a, tid) { LetPass(s.bps, a, tid, fl); }
      else {
        var s' := NormalHit(s, ti, k);
        Onward(s, ti, k);
        RestHas(s, s', ti, s.threads[ti].regs.step, s'.threads[ti].fl);
        CountedAt(s.bps, s'.bps, a, tid, k);
        NotedAt(s.bps, a, tid, k, fl);
      }
    }
    hide NormalHit, FirstOrdinary, First, HitCounted, HitNoted, PassedBy;
  }

  lemma HitIs(s: State, ti: nat, a: nat)
    requires ti < |s.threads|
    ensures var o, t := HandleHit(s, ti, a), s.threads[ti];
      && (o.resume <==> PassedBy(s.bps, a, t.tid) || (!AnyOrdinary(s.bps, a) && !AnyStepping(s.bps, a)))
      && (exists mid :: SteppingGone(s.bps, mid, a) && HitCounted(mid, o.s.bps, a, t.tid))
      && Rest(s, o.s, ti, t.regs.step, o.s.threads[ti].fl)
      && HitNoted(s.bps, a, t.tid, Stepped(s.bps, a, t.fl), o.s.threads[ti].fl)
  {
    var t := s.threads[ti];
    var q, k := First(s.bps, SteppingAt(a)), First(s.bps, NormalAt(a));
    AnyIs(s.bps, a);
    if q == |s.bps| && k == |s.bps| {
      NothingThere(s.bps, a, t.tid, Stepped(s.bps, a, t.fl));
    } else {
      var s1 := if q == |s.bps| then s else SteppingHit(s, ti, q);
      StepOutOf(s, ti, a);
      RestHas(s, s1, ti, t.regs.step, Stepped(s.bps, a, t.fl));
      var o := ListedHit(s1, ti, a);
      ListedIs(s1, ti, a);
      assert HandleHit(s, ti, a) == o;
      hide SteppingHit, ListedHit, HandleHit, First, HitNoted, HitCounted, SteppingGone, PassedBy, AnyOrdinary, AnyStepping, Rest, Stepped;
      OrdinaryStays(s.bps, s1.bps, a, t.tid, s1.threads[ti].fl, o.s.threads[ti].fl);
      RestThen(s, s1, o.s, ti, t.regs.step, Stepped(s.bps, a, t.fl), t.regs.step, o.s.threads[ti].fl);
    }
  }

  lemma AnyIs(bps: seq<Bp>, a: nat)
    ensures AnyOrdinary(bps, a) <==> First(bps, NormalAt(a)) < |bps|
    ensures AnyStepping(bps, a) <==> First(bps, SteppingAt(a)) < |bps|
  {
    OrdinaryIs(bps, a, First(bps, NormalAt(a)));
    SteppingIs(bps, a, First(bps, SteppingAt(a)));
  }

  lemma BreakEnds(s: State, ti: nat, a: nat, pc: nat)
    requires ti < |s.threads| && a != 0
    ensures var o := HandleHit(WithFlags(s, ti, s.threads[ti].fl.(justHitBp := true)), ti, a);
      Handle(s, ti, Break(a), pc) == Outcome(WithStep(o.s, ti, true), o.resume) && Rest(o.s, WithStep(o.s, ti, true), ti, true, o.s.threads[ti].fl)
  {
    hide HandleHit;
  }

  /** A breakpoint exception: the debuggee goes on exactly if no breakpoint is listed there or the ordinary
      one is a software one for another thread. */
  lemma BreakIs(s: State, ti: nat, a: nat, pc: nat)
    requires ti < |s.threads| && a != 0
    ensures var o, t := Handle(s, ti, Break(a), pc), s.threads[ti];
      && (o.resume <==> PassedBy(s.bps, a, t.tid) || (!AnyOrdinary(s.bps, a) && !AnyStepping(s.bps, a)))
      && (exists mid :: SteppingGone(s.bps, mid, a) && HitCounted(mid, o.s.bps, a, t.tid))
      && Rest(s, o.s, ti, true, o.s.threads[ti].fl)
      && HitNoted(s.bps, a, t.tid, Stepped(s.bps, a, t.fl.(justHitBp := true)), o.s.threads[ti].fl)
  {
    var t := s.threads[ti];
    var s0 := WithFlags(s, ti, t.fl.(justHitBp := true));
    FlagsLeave(s, ti, t.fl.(justHitBp := true));
    HitIs(s0, ti, a);
    var o := HandleHit(s0, ti, a);
    hide Handle, HandleHit, HitNoted, HitCounted, SteppingGone, PassedBy, AnyOrdinary, AnyStepping, Stepped;
    BreakEnds(s, ti, a, pc);
    RestThen(s, s0, o.s, ti, t.regs.step, t.fl.(justHitBp := true), t.regs.step, o.s.threads[ti].fl);
    hide HandleHit, HitNoted, HitCounted, SteppingGone, PassedBy, AnyOrdinary, AnyStepping, Rest, Stepped;
    RestThen(s, o.s, WithStep(o.s, ti, true), ti, t.regs.step, o.s.threads[ti].fl, true, o.s.threads[ti].fl);
  }

  lemma NothingThere(bps: seq<Bp>, a: nat, tid: nat, fl: Flags)
    requires !AnyOrdinary(bps, a) && !AnyStepping(bps, a)
    ensures SteppingGone(bps, bps, a) && HitCounted(bps, bps, a, tid) && HitNoted(bps, a, tid, fl, fl) && !PassedBy(bps, a, tid)
  {
  }

  // ----- steps

  /** A step behind a breakpoint, not the user's, or one that a temporary breakpoint of a step over will end. */
  predicate StepGoesOn(fl: Flags) {
    if fl.justHitBp then !fl.isStepping else fl.stepKind.StepOver? && fl.setTempSs
  }

  function StepNoted(fl: Flags): Flags {
    fl.(stepKind := StepNone, isStepping := false, justHitBp := false, justHitSw := fl.justHitSw && !fl.justHitBp,
        justHitSs := fl.justHitSs && !(fl.justHitBp && !fl.isStepping && fl.stepKind.StepOver?))
  }

  /** Ordinary breakpoints are enabled, and so is the one silenced; a user's step counts as a hit of one at `pc`. */
  predicate StepCounted(bps: seq<Bp>, bps': seq<Bp>, pc: nat, fl: Flags) {
    && |bps'| == |bps|
    && forall i :: 0 <= i < |bps| ==>
         bps'[i] == bps[i].(hits := bps[i].hits + (if fl.isStepping && FirstOrdinary(bps, pc, i) then 1 else 0),
                            disabled := bps[i].disabled && (bps[i].temporary || bps[i].stepping)
                                        && !(fl.justHitBp && fl.justHitSw && FirstNumbered(bps, fl.lastBpId, i)))
  }

  /** The enabling, before the verdict. */
  lemma Enabling(s: State, ti: nat)
    requires ti < |s.threads|
    ensures var fl, s1 := s.threads[ti].fl, SetStates(s, Normals, false, 0);
      var s2 := if fl.justHitBp && fl.justHitSw then SetStateById(s1, fl.lastBpId, false) else s1;
      Same(s, s2, ti) && StepCounted(s.bps, s2.bps, 0, fl.(isStepping := false))
  {
    var fl, st, s1 := s.threads[ti].fl, s.threads[ti].regs.step, SetStates(s, Normals, false, 0);
    SetStatesLeave(s, Normals, false, 0, ti);
    RestHas(s, s1, ti, st, fl);
    var j := First(s1.bps, WithId(fl.lastBpId));
    forall i ensures FirstNumbered(s.bps, fl.lastBpId, i) <==> i < |s.bps| && i == j {
      NumberedIs(s1.bps, fl.lastBpId, i);
      SameNumbers(s.bps, s1.bps, fl.lastBpId, i);
    }
    hide SetStates, First, FirstNumbered, FirstOrdinary, Rest, ThreadsKept, SetState;
    if fl.justHitBp && fl.justHitSw && j < |s1.bps| {
      SetStateLeaves(s1, j, false, ti);
      RestThen(s, s1, SetState(s1, j, false), ti, st, fl, st, fl);
    }
  }

  /** The notes when the verdict is given. */
  function Judged(fl: Flags): Flags {
    StepNoted(fl).(stepKind := fl.stepKind, isStepping := fl.isStepping)
  }

  predicate RearmOutcome(s: State, ti: nat, o: Outcome)
    requires ti < |s.threads|
  {
    var t := s.threads[ti];
    && (o.resume <==> StepGoesOn(t.fl)) && StepCounted(s.bps, o.s.bps, 0, t.fl.(isStepping := false))
    && Rest(s, o.s, ti, t.regs.step, Judged(t.fl))
  }

  /** What the handler does once the breakpoints are enabled: behind a software breakpoint, */
  lemma BehindSoft(s: State, ti: nat)
    requires ti < |s.threads| && s.threads[ti].fl.justHitBp && s.threads[ti].fl.justHitSw
    ensures var fl := s.threads[ti].fl;
      var s2 := SetStateById(SetStates(s, Normals, false, 0), fl.lastBpId, false);
      HandleSingleStep(s, ti) == Outcome(WithFlags(WithFlags(s2, ti, fl.(justHitSw := false)), ti, Judged(fl)), StepGoesOn(fl))
  {
    hide SetStates, SetStateById, StepCounted, Rest, WithFlags;
    var fl, st := s.threads[ti].fl, s.threads[ti].regs.step;
    var s2 := SetStateById(SetStates(s, Normals, false, 0), fl.lastBpId, false);
    SetStatesLeave(s, Normals, false, 0, ti);
    RestHas(s, SetStates(s, Normals, false, 0), ti, st, fl);
    Enabling(s, ti);
    RestHas(s, s2, ti, st, fl);
    FlagsLeave(s2, ti, fl.(justHitSw := false));
    RestHas(s2, WithFlags(s2, ti, fl.(justHitSw := false)), ti, st, fl.(justHitSw := false));
  }

  /** behind a hardware one or none. */
  lemma BehindOther(s: State, ti: nat)
    requires ti < |s.threads| && !(s.threads[ti].fl.justHitBp && s.threads[ti].fl.justHitSw)
    ensures var fl, s1 := s.threads[ti].fl, SetStates(s, Normals, false, 0);
      HandleSingleStep(s, ti) == Outcome(if fl.justHitBp then WithFlags(s1, ti, Judged(fl)) else s1, StepGoesOn(fl))
  {
    hide SetStates, SetStateById, StepCounted, Rest, WithFlags;
    SetStatesLeave(s, Normals, false, 0, ti);
    RestHas(s, SetStates(s, Normals, false, 0), ti, s.threads[ti].regs.step, s.threads[ti].fl);
  }

  lemma RearmIs(s: State, ti: nat)
    requires ti < |s.threads|
    ensures RearmOutcome(s, ti, HandleSingleStep(s, ti))
  {
    hide HandleSingleStep, SetStates, SetStateById, StepCounted, Rest;
    var st, fl, s1 := s.threads[ti].regs.step, s.threads[ti].fl, SetStates(s, Normals, false, 0);
    Enabling(s, ti);
    if fl.justHitBp && fl.justHitSw {
      BehindSoft(s, ti);
      var s2, fl1 := SetStateById(s1, fl.lastBpId, false), fl.(justHitSw := false);
      RestHas(s, s2, ti, st, fl);
      FlagsLeave(s2, ti, fl1);
      FlagsLeave(WithFlags(s2, ti, fl1), ti, Judged(fl));
      RestThen(s, s2, WithFlags(s2, ti, fl1), ti, st, fl, st, fl1);
      RestThen(s, WithFlags(s2, ti, fl1), WithFlags(WithFlags(s2, ti, fl1), ti, Judged(fl)), ti, st, fl1, st, Judged(fl));
    } else {
      BehindOther(s, ti);
      RestHas(s, s1, ti, st, fl);
      FlagsLeave(s1, ti, Judged(fl));
      if fl.justHitBp { RestThen(s, s1, WithFlags(s1, ti, Judged(fl)), ti, st, fl, st, Judged(fl)); }
    }
  }

  predicate StepOutcome(s: State, ti: nat, pc: nat, o: Outcome)
    requires ti < |s.threads|
  {
    && (o.resume <==> StepGoesOn(s.threads[ti].fl)) && StepCounted(s.bps, o.s.bps, pc, s.threads[ti].fl)
    && Rest(s, o.s, ti, s.threads[ti].regs.step, StepNoted(s.threads[ti].fl))
  }

  lemma StepStopIs(s: State, ti: nat, pc: nat)
    requires ti < |s.threads|
    ensures StepOutcome(s, ti, pc, StepStop(s, ti, pc))
  {
    hide HandleSingleStep, StepCounted, HitAt, First, Rest, ThreadsKept;
    var fl, st := s.threads[ti].fl, s.threads[ti].regs.step;
    var k := First(s.bps, NormalAt(pc));
    StepHit(s, ti, pc);
    var s1 := if fl.isStepping && k < |s.bps| then HitAt(s, k) else s;
    RestHas(s, s1, ti, st, fl);
    RearmIs(s1, ti);
    var o := HandleSingleStep(s1, ti);
    Ending(s1, ti, o);
    StepCountedOnce(s.bps, s1.bps, o.s.bps, pc, fl);
    RestThen(s, s1, WithFlags(o.s, ti, StepNoted(fl)), ti, st, fl, st, StepNoted(fl));
    hide WithFlags;
    assert StepStop(s, ti, pc) == Outcome(WithFlags(o.s, ti, StepNoted(fl)), o.resume);
  }

  lemma Ending(s: State, ti: nat, o: Outcome)
    requires ti < |s.threads| && Rest(s, o.s, ti, s.threads[ti].regs.step, Judged(s.threads[ti].fl))
    ensures |o.s.threads| == |s.threads| && o.s.threads[ti].fl.(stepKind := StepNone, isStepping := false) == StepNoted(s.threads[ti].fl)
    ensures Rest(s, WithFlags(o.s, ti, StepNoted(s.threads[ti].fl)), ti, s.threads[ti].regs.step, StepNoted(s.threads[ti].fl))
  {
  }

  /** A step exception: the debuggee goes on exactly on a step that is not the user's end. */
  lemma StepIs(s: State, ti: nat, pc: nat)
    requires ti < |s.threads| && !s.threads[ti].fl.justHitWp
    ensures StepOutcome(s, ti, pc, Handle(s, ti, Break(0), pc))
  {
    StepStopIs(s, ti, pc);
    hide StepOutcome, StepStop;
  }

  lemma StepHit(s: State, ti: nat, pc: nat)
    requires ti < |s.threads|
    ensures var fl, k := s.threads[ti].fl, First(s.bps, NormalAt(pc));
      var s1 := if fl.isStepping && k < |s.bps| then HitAt(s, k) else s;
      && Same(s, s1, ti) && |s1.bps| == |s.bps|
      && forall i :: 0 <= i < |s.bps| ==> s1.bps[i] == s.bps[i].(hits := s.bps[i].hits + if fl.isStepping && FirstOrdinary(s.bps, pc, i) then 1 else 0)
  {
    var k := First(s.bps, NormalAt(pc));
    forall i ensures FirstOrdinary(s.bps, pc, i) <==> i < |s.bps| && i == k { OrdinaryIs(s.bps, pc, i); }
    if k < |s.bps| { HitAtLeaves(s, k, ti); }
    hide HitAt, First, FirstOrdinary;
  }

  lemma StepCountedOnce(bps: seq<Bp>, bps1: seq<Bp>, bps': seq<Bp>, pc: nat, fl: Flags)
    requires |bps1| == |bps| && StepCounted(bps1, bps', 0, fl.(isStepping := false))
    requires forall i :: 0 <= i < |bps| ==> bps1[i] == bps[i].(hits := bps[i].hits + if fl.isStepping && FirstOrdinary(bps, pc, i) then 1 else 0)
    ensures StepCounted(bps, bps', pc, fl)
  {
    forall i ensures FirstNumbered(bps1, fl.lastBpId, i) <==> FirstNumbered(bps, fl.lastBpId, i) { SameNumbers(bps, bps1, fl.lastBpId, i); }
    hide FirstNumbered, FirstOrdinary;
  }
}
