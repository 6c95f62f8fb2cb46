/** What every operation of the engine keeps, for any mix of hardware and software,
    duplicate, temporary and thread-specific points:

    - code differs from the original program only by BRK words at listed software breakpoints,
      and every breakpoint remembers the original word;
    - each control register of each thread holds the control word of the enabled point that
      owns it and targets that thread, and is 0 otherwise;
    - no two points own one register, and the counters equal the list lengths. */
module EngineInvariants {
  import opened Engine

  // ----- code

  predicate PatchedAt(bps: seq<Bp>, a: nat) {
    exists k :: 0 <= k < |bps| && !bps[k].hw && bps[k].location == a
  }

  ghost predicate CodeOk(s: State, orig: Code) {
    && s.code.Keys == orig.Keys
    && (forall a :: a in s.code ==> s.code[a] == orig[a] || (s.code[a] == BRK && PatchedAt(s.bps, a)))
    && (forall k :: 0 <= k < |s.bps| ==> s.bps[k].orig == Fetch(orig, s.bps[k].location))
    && s.numBps == |s.bps| && s.numWps == |s.wps|
  }

  // ----- registers

  /** What a register bank needs to know of a point; `reg` is -1 for a point without a register. */
  datatype Point = Point(reg: int, target: Target, armed: bool, slot: Slot)

  function BpPoints(bps: seq<Bp>): seq<Point> {
    seq(|bps|, i requires 0 <= i < |bps| =>
      Point(if bps[i].hw then bps[i].reg else -1, bps[i].target, !bps[i].disabled, bps[i].slot))
  }

  function WpPoints(wps: seq<Wp>): seq<Point> {
    seq(|wps|, i requires 0 <= i < |wps| => Point(wps[i].reg, wps[i].target, true, wps[i].slot))
  }

  predicate DistinctRegs(pts: seq<Point>) {
    forall i, j :: 0 <= i < j < |pts| ==> pts[i].reg == -1 || pts[i].reg != pts[j].reg
  }

  /** Point `p` keeps register `r` of thread `t` armed. */
  predicate Keeps(p: Point, t: Thread, r: nat) {
    p.reg == r && p.armed && Targets(p.target, t)
  }

  predicate SlotOk(pts: seq<Point>, t: Thread, r: nat, slot: Slot) {
    && (forall k :: 0 <= k < |pts| && Keeps(pts[k], t, r) ==> slot == pts[k].slot)
    && ((forall k :: 0 <= k < |pts| ==> !Keeps(pts[k], t, r)) ==> slot.ctl == 0)
  }

  predicate BankOk(ts: seq<Thread>, b: Bank, pts: seq<Point>) {
    && DistinctRegs(pts)
    && (forall k :: 0 <= k < |pts| ==> -1 <= pts[k].reg < NUM_SLOTS)
    && (forall i, r :: 0 <= i < |ts| && 0 <= r < NUM_SLOTS ==> SlotOk(pts, ts[i], r, ts[i].regs.Get(b)[r]))
  }

  ghost predicate Inv(s: State, orig: Code) {
    && Shaped(s) && CodeOk(s, orig)
    && BankOk(s.threads, Breaks, BpPoints(s.bps))
    && BankOk(s.threads, Watches, WpPoints(s.wps))
  }

  // ----- register bank steps

  lemma ArmOther(ts: seq<Thread>, g: Target, b: Bank, r: nat, s: Slot, c: Bank, pts: seq<Point>)
    requires r < NUM_SLOTS && b != c && BankOk(ts, c, pts)
    ensures BankOk(ArmAll(ts, g, b, r, s), c, pts) && BankOk(DisarmAll(ts, g, b, r), c, pts)
  {
    forall i, q | 0 <= i < |ts| && 0 <= q < NUM_SLOTS
      ensures SlotOk(pts, ArmAll(ts, g, b, r, s)[i], q, ArmAll(ts, g, b, r, s)[i].regs.Get(c)[q])
      ensures SlotOk(pts, DisarmAll(ts, g, b, r)[i], q, DisarmAll(ts, g, b, r)[i].regs.Get(c)[q])
    {
      assert SlotOk(pts, ts[i], q, ts[i].regs.Get(c)[q]);
    }
  }

  lemma ArmPoint(ts: seq<Thread>, b: Bank, pts: seq<Point>, k: nat)
    requires BankOk(ts, b, pts) && k < |pts| && pts[k].reg != -1
    ensures BankOk(ArmAll(ts, pts[k].target, b, pts[k].reg, pts[k].slot), b, pts[k := pts[k].(armed := true)])
  {
    var pts' := pts[k := pts[k].(armed := true)];
    var ts' := ArmAll(ts, pts[k].target, b, pts[k].reg, pts[k].slot);
    forall i, r | 0 <= i < |ts| && 0 <= r < NUM_SLOTS
      ensures SlotOk(pts', ts'[i], r, ts'[i].regs.Get(b)[r])
    {
      assert SlotOk(pts, ts[i], r, ts[i].regs.Get(b)[r]);
      assert Keeps(pts'[k], ts'[i], r) <==> r == pts[k].reg && Targets(pts[k].target, ts[i]);
      assert forall j :: 0 <= j < |pts| && j != k ==> Keeps(pts'[j], ts'[i], r) == Keeps(pts[j], ts[i], r);
    }
  }

  lemma DisarmPoint(ts: seq<Thread>, b: Bank, pts: seq<Point>, k: nat)
    requires BankOk(ts, b, pts) && k < |pts| && pts[k].reg != -1
    ensures BankOk(DisarmAll(ts, pts[k].target, b, pts[k].reg), b, pts[k := pts[k].(armed := false)])
  {
    var pts' := pts[k := pts[k].(armed := false)];
    var ts' := DisarmAll(ts, pts[k].target, b, pts[k].reg);
    forall i, r | 0 <= i < |ts| && 0 <= r < NUM_SLOTS
      ensures SlotOk(pts', ts'[i], r, ts'[i].regs.Get(b)[r])
    {
      assert SlotOk(pts, ts[i], r, ts[i].regs.Get(b)[r]);
      assert !Keeps(pts'[k], ts'[i], r);
      assert forall j :: 0 <= j < |pts| && j != k ==> Keeps(pts'[j], ts'[i], r) == Keeps(pts[j], ts[i], r);
      if (forall j :: 0 <= j < |pts| ==> !Keeps(pts'[j], ts'[i], r)) && !Keeps(pts[k], ts[i], r) {
        assert forall j :: 0 <= j < |pts| ==> !Keeps(pts[j], ts[i], r);
      }
    }
  }

  lemma AppendPoint(ts: seq<Thread>, b: Bank, pts: seq<Point>, p: Point)
    requires BankOk(ts, b, pts) && -1 <= p.reg < NUM_SLOTS
    requires p.reg != -1 ==> p.armed && forall k :: 0 <= k < |pts| ==> pts[k].reg != p.reg
    ensures BankOk(if p.reg == -1 then ts else ArmAll(ts, p.target, b, p.reg, p.slot), b, pts + [p])
  {
    var pts' := pts + [p];
    var ts' := if p.reg == -1 then ts else ArmAll(ts, p.target, b, p.reg, p.slot);
    forall i, r | 0 <= i < |ts| && 0 <= r < NUM_SLOTS
      ensures SlotOk(pts', ts'[i], r, ts'[i].regs.Get(b)[r])
    {
      assert SlotOk(pts, ts[i], r, ts[i].regs.Get(b)[r]);
      assert pts'[|pts|] == p;
      assert forall j :: 0 <= j < |pts| ==> Keeps(pts'[j], ts'[i], r) == Keeps(pts[j], ts[i], r);
    }
  }

  /** The points other than the `k`-th, which keeps nothing. */
  lemma RemoveSlot(t: Thread, r: nat, slot: Slot, pts: seq<Point>, k: nat)
    requires SlotOk(pts, t, r, slot) && k < |pts| && !Keeps(pts[k], t, r)
    ensures SlotOk(RemoveAt(pts, k), t, r, slot)
  {
    var pts' := RemoveAt(pts, k);
    assert forall j :: 0 <= j < |pts'| ==> pts'[j] == pts[if j < k then j else j + 1];
    if forall j :: 0 <= j < |pts'| ==> !Keeps(pts'[j], t, r) {
      forall j | 0 <= j < |pts| ensures !Keeps(pts[j], t, r) {
        if j != k { assert pts[j] == pts'[if j < k then j else j - 1]; }
      }
    }
  }

  lemma RemoveRegs(pts: seq<Point>, k: nat)
    requires DistinctRegs(pts) && k < |pts| && forall j :: 0 <= j < |pts| ==> -1 <= pts[j].reg < NUM_SLOTS
    ensures DistinctRegs(RemoveAt(pts, k)) && forall j :: 0 <= j < |RemoveAt(pts, k)| ==> -1 <= RemoveAt(pts, k)[j].reg < NUM_SLOTS
  {
    assert forall j :: 0 <= j < |RemoveAt(pts, k)| ==> RemoveAt(pts, k)[j] == pts[if j < k then j else j + 1];
  }

  lemma RemovePoint(ts: seq<Thread>, b: Bank, pts: seq<Point>, k: nat)
    requires BankOk(ts, b, pts) && k < |pts| && (pts[k].reg == -1 || !pts[k].armed)
    ensures BankOk(ts, b, RemoveAt(pts, k))
  {
    RemoveRegs(pts, k);
    hide SlotOk, RemoveAt, DistinctRegs;
    forall i, r | 0 <= i < |ts| && 0 <= r < NUM_SLOTS
      ensures SlotOk(RemoveAt(pts, k), ts[i], r, ts[i].regs.Get(b)[r])
    {
      RemoveSlot(ts[i], r, ts[i].regs.Get(b)[r], pts, k);
    }
  }

  /** A bank does not depend on stop flags, focus or the step bit. */
  lemma BankFrame(ts: seq<Thread>, ts': seq<Thread>, b: Bank, pts: seq<Point>)
    requires BankOk(ts, b, pts) && |ts'| == |ts|
    requires forall i :: 0 <= i < |ts| ==> ts'[i].id == ts[i].id && ts'[i].regs.Get(b) == ts[i].regs.Get(b)
    ensures BankOk(ts', b, pts)
  {
    forall i, r | 0 <= i < |ts| && 0 <= r < NUM_SLOTS
      ensures SlotOk(pts, ts'[i], r, ts'[i].regs.Get(b)[r])
    {
      assert SlotOk(pts, ts[i], r, ts[i].regs.Get(b)[r]);
      assert forall j :: 0 <= j < |pts| ==> Keeps(pts[j], ts'[i], r) == Keeps(pts[j], ts[i], r);
    }
  }

  // ----- the operations keep the invariant

  lemma SetStateKeeps(s: State, k: nat, disabled: bool, orig: Code)
    requires Inv(s, orig) && k < |s.bps|
    ensures Inv(SetState(s, k, disabled), orig)
  {
    var s' := SetState(s, k, disabled);
    var b := s.bps[k];
    assert BpPoints(s'.bps) == BpPoints(s.bps)[k := BpPoints(s.bps)[k].(armed := !disabled)];
    if b.hw {
      ArmOther(s.threads, b.target, Breaks, b.reg, b.slot, Watches, WpPoints(s.wps));
      if disabled { DisarmPoint(s.threads, Breaks, BpPoints(s.bps), k); }
      else { ArmPoint(s.threads, Breaks, BpPoints(s.bps), k); }
    } else {
      UnarmedFlag(s.threads, Breaks, BpPoints(s.bps), k, !disabled);
      assert !s'.bps[k].hw && s'.bps[k].location == b.location;
    }
    PatchedSame(s.bps, s'.bps);
  }

  /** The armed flag of a point without a register says nothing about registers. */
  lemma UnarmedFlag(ts: seq<Thread>, b: Bank, pts: seq<Point>, k: nat, armed: bool)
    requires BankOk(ts, b, pts) && k < |pts| && pts[k].reg == -1
    ensures BankOk(ts, b, pts[k := pts[k].(armed := armed)])
  {
    var pts' := pts[k := pts[k].(armed := armed)];
    forall i, r | 0 <= i < |ts| && 0 <= r < NUM_SLOTS
      ensures SlotOk(pts', ts[i], r, ts[i].regs.Get(b)[r])
    {
      assert SlotOk(pts, ts[i], r, ts[i].regs.Get(b)[r]);
      assert forall j :: 0 <= j < |pts| ==> Keeps(pts'[j], ts[i], r) == Keeps(pts[j], ts[i], r);
    }
  }

  lemma PatchedSame(bps: seq<Bp>, bps': seq<Bp>)
    requires |bps'| == |bps|
    requires forall k :: 0 <= k < |bps| ==> bps'[k].hw == bps[k].hw && bps'[k].location == bps[k].location
    ensures forall a :: PatchedAt(bps, a) ==> PatchedAt(bps', a)
  {
    forall a | PatchedAt(bps, a) ensures PatchedAt(bps', a) {
      var k :| 0 <= k < |bps| && !bps[k].hw && bps[k].location == a;
      assert !bps'[k].hw && bps'[k].location == a;
    }
  }

  lemma DeleteAtKeeps(s: State, k: nat, orig: Code)
    requires Inv(s, orig) && k < |s.bps|
    ensures Inv(DeleteAt(s, k), orig)
  {
    SetStateKeeps(s, k, true, orig);
    SetStateShaped(s, k, true);
    DisabledWord(s, k, orig);
    var s1 := SetState(s, k, true);
    UnlinkShaped(s1, k);
    RemovePoint(s1.threads, Breaks, BpPoints(s1.bps), k);
    UnlinkCode(s1, k, orig);
    UnlinkPoints(s1.bps, k);
    hide SetState, BankOk, CodeOk, Shaped, BpPoints, RemoveAt;
  }

  /** Disabling wrote the original word back. */
  lemma DisabledWord(s: State, k: nat, orig: Code)
    requires Inv(s, orig) && k < |s.bps|
    ensures var s1, b := SetState(s, k, true), s.bps[k];
      |s1.bps| == |s.bps| && s1.bps[k] == b.(disabled := true) && (!b.hw && b.location in s1.code ==> s1.code[b.location] == orig[b.location])
  {
    hide BankOk;
  }

  lemma UnlinkPoints(bps: seq<Bp>, k: nat)
    requires k < |bps|
    ensures BpPoints(RemoveAt(bps, k)) == RemoveAt(BpPoints(bps), k)
  {
  }

  /** A disabled breakpoint is unlinked. */
  lemma UnlinkCode(s: State, k: nat, orig: Code)
    requires CodeOk(s, orig) && k < |s.bps|
    requires !s.bps[k].hw && s.bps[k].location in s.code ==> s.code[s.bps[k].location] == orig[s.bps[k].location]
    ensures CodeOk(s.(bps := RemoveAt(s.bps, k), numBps := s.numBps - 1), orig)
  {
    var rest := RemoveAt(s.bps, k);
    assert forall j :: 0 <= j < |rest| ==> rest[j] == s.bps[if j < k then j else j + 1];
    forall a | a in s.code && s.code[a] != orig[a] ensures PatchedAt(rest, a) {
      var j :| 0 <= j < |s.bps| && !s.bps[j].hw && s.bps[j].location == a;
      assert j != k;
      assert rest[if j < k then j else j - 1] == s.bps[j];
    }
  }

  lemma {:induction false} SetStatesKeeps(s: State, c: Choice, disabled: bool, k: nat, orig: Code)
    requires Inv(s, orig) && k <= |s.bps|
    ensures Inv(SetStates(s, c, disabled, k), orig)
    decreases |s.bps| - k
  {
    if k < |s.bps| {
      SetChosenKeeps(s, c, disabled, k, orig);
      SetStatesKeeps(SetChosen(s, c, disabled, k), c, disabled, k + 1, orig);
    }
  }

  lemma SetChosenKeeps(s: State, c: Choice, disabled: bool, k: nat, orig: Code)
    requires Inv(s, orig) && k < |s.bps|
    ensures Inv(SetChosen(s, c, disabled, k), orig)
  {
    if Chosen(c, s.bps[k]) { SetStateKeeps(s, k, disabled, orig); }
  }

  lemma {:induction false} DeleteFromKeeps(s: State, c: Choice, k: nat, orig: Code)
    requires Inv(s, orig) && k <= |s.bps|
    ensures Inv(DeleteFrom(s, c, k), orig)
    decreases |s.bps| - k
  {
    if k < |s.bps| {
      if Chosen(c, s.bps[k]) {
        DeleteAtKeeps(s, k, orig);
        DeleteFromKeeps(DeleteAt(s, k), c, k, orig);
      } else {
        DeleteFromKeeps(s, c, k + 1, orig);
      }
    }
  }

  lemma AddBpKeeps(s: State, loc: nat, temporary: bool, stepping: bool, thread: int, orig: Code)
    requires Inv(s, orig)
    ensures Inv(AddBp(s, loc, temporary, stepping, thread), orig)
  {
    if KnownThread(s.threads, thread) {
      AddBpShaped(s, loc, temporary, stepping, thread);
      AddBpCode(s, loc, temporary, stepping, thread, orig);
      AddBpBanks(s, loc, temporary, stepping, thread, orig);
      hide AddBp, CodeOk, BankOk, Shaped;
    }
  }

  /** It records the original word, even on top of another breakpoint. */
  lemma AddBpCode(s: State, loc: nat, temporary: bool, stepping: bool, thread: int, orig: Code)
    requires CodeOk(s, orig) && KnownThread(s.threads, thread)
    ensures CodeOk(AddBp(s, loc, temporary, stepping, thread), orig)
  {
    hide FreeReg, ArmAll, BpRegs, Find, Store;
    var b := MakeBp(s, loc, temporary, stepping, thread);
    var s' := AddBp(s, loc, temporary, stepping, thread);
    assert b.orig == Fetch(orig, loc) by {
      if First(s.bps, At(loc)) == |s.bps| { assert !PatchedAt(s.bps, loc); }
    }
    assert s'.bps == s.bps + [b] && b.location == loc;
    assert s'.code == (if b.hw then s.code else Store(s.code, loc, BRK)) && s'.numBps == s.numBps + 1 && s'.wps == s.wps && s'.numWps == s.numWps;
    hide MakeBp, First, AddBp;
    CodeWith(s, s', b, orig);
  }

  lemma CodeWith(s: State, s': State, b: Bp, orig: Code)
    requires CodeOk(s, orig) && s'.bps == s.bps + [b] && b.orig == Fetch(orig, b.location)
    requires s'.code == if b.hw then s.code else Store(s.code, b.location, BRK)
    requires s'.numBps == s.numBps + 1 && s'.wps == s.wps && s'.numWps == s.numWps
    ensures CodeOk(s', orig)
  {
    assert s'.bps[|s.bps|] == b;
    forall a | PatchedAt(s.bps, a) ensures PatchedAt(s'.bps, a) {
      var k :| 0 <= k < |s.bps| && !s.bps[k].hw && s.bps[k].location == a;
      assert s'.bps[k] == s.bps[k];
    }
  }

  lemma AddBpBanks(s: State, loc: nat, temporary: bool, stepping: bool, thread: int, orig: Code)
    requires Inv(s, orig) && KnownThread(s.threads, thread)
    ensures var s' := AddBp(s, loc, temporary, stepping, thread);
      BankOk(s'.threads, Breaks, BpPoints(s'.bps)) && BankOk(s'.threads, Watches, WpPoints(s'.wps))
  {
    hide First, Find, CodeOk, BankOk;
    var b := MakeBp(s, loc, temporary, stepping, thread);
    var s' := AddBp(s, loc, temporary, stepping, thread);
    var p := Point(b.reg, b.target, true, b.slot);
    assert BpPoints(s'.bps) == BpPoints(s.bps) + [p];
    forall k | 0 <= k < |s.bps| && b.hw ensures BpPoints(s.bps)[k].reg != b.reg {
      assert BpRegs(s.bps)[k] == BpPoints(s.bps)[k].reg;
    }
    AppendPoint(s.threads, Breaks, BpPoints(s.bps), p);
    if b.hw { ArmOther(s.threads, b.target, Breaks, b.reg, b.slot, Watches, WpPoints(s.wps)); }
  }

  lemma HitAtKeeps(s: State, k: nat, orig: Code)
    requires Inv(s, orig) && k < |s.bps|
    ensures Inv(HitAt(s, k), orig)
  {
    if s.bps[k].temporary { DeleteAtKeeps(s, k, orig); }
    else {
      assert BpPoints(HitAt(s, k).bps) == BpPoints(s.bps);
      PatchedSame(s.bps, HitAt(s, k).bps);
    }
  }

  lemma SetStateByIdKeeps(s: State, id: int, disabled: bool, orig: Code)
    requires Inv(s, orig)
    ensures Inv(SetStateById(s, id, disabled), orig)
  {
    var k := First(s.bps, WithId(id));
    if k < |s.bps| { SetStateKeeps(s, k, disabled, orig); }
  }

  lemma DeleteByIdKeeps(s: State, id: int, orig: Code)
    requires Inv(s, orig)
    ensures Inv(DeleteById(s, id), orig)
  {
    var k := First(s.bps, WithId(id));
    if k < |s.bps| { DeleteAtKeeps(s, k, orig); }
  }

  lemma AddWpKeeps(s: State, loc: nat, len: nat, lsc: nat, thread: int, readable: bool, orig: Code)
    requires Inv(s, orig)
    ensures Inv(AddWp(s, loc, len, lsc, thread, readable), orig)
  {
    if GoodWatch(s, len, lsc, thread, readable) {
      var w := MakeWp(s, loc, len, lsc, thread, readable);
      var s' := AddWp(s, loc, len, lsc, thread, readable);
      var p := Point(w.reg, w.target, true, w.slot);
      assert WpPoints(s'.wps) == WpPoints(s.wps) + [p];
      forall k | 0 <= k < |s.wps| ensures WpPoints(s.wps)[k].reg != w.reg {
        assert WpRegs(s.wps)[k] == WpPoints(s.wps)[k].reg;
      }
      AppendPoint(s.threads, Watches, WpPoints(s.wps), p);
      ArmOther(s.threads, w.target, Watches, w.reg, w.slot, Breaks, BpPoints(s.bps));
    }
  }

  /** The points are those of the other watchpoints. */
  lemma UnlinkWpPoints(wps: seq<Wp>, k: nat)
    requires k < |wps|
    ensures var pts := WpPoints(wps);
            k < |pts| && WpPoints(RemoveAt(wps, k)) == RemoveAt(pts[k := pts[k].(armed := false)], k)
  {
  }

  lemma DeleteWpAtKeeps(s: State, k: nat, orig: Code)
    requires Inv(s, orig) && k < |s.wps|
    ensures Inv(DeleteWpAt(s, k), orig)
  {
    var pts := WpPoints(s.wps);
    var w := s.wps[k];
    DeleteWpShaped(s, k);
    UnlinkWpPoints(s.wps, k);
    assert pts[k].reg == w.reg && pts[k].target == w.target && 0 <= w.reg < NUM_SLOTS;
    assert CodeOk(DeleteWpAt(s, k), orig);
    hide CodeOk, BankOk, Shaped, WpPoints, BpPoints, RemoveAt, DisarmAll;
    DisarmPoint(s.threads, Watches, pts, k);
    RemovePoint(DisarmAll(s.threads, w.target, Watches, w.reg), Watches, pts[k := pts[k].(armed := false)], k);
    ArmOther(s.threads, w.target, Watches, w.reg, w.slot, Breaks, BpPoints(s.bps));
  }

  lemma DeleteWpByIdKeeps(s: State, id: int, orig: Code)
    requires Inv(s, orig)
    ensures Inv(DeleteWpById(s, id), orig)
  {
    var k := FirstWp(s.wps, id);
    if k < |s.wps| {
      DeleteWpAtKeeps(s, k, orig);
      hide Inv, DeleteWpAt;
    }
  }

  // ----- what the delete loops leave

  /** The breakpoints a delete loop must not touch, in order. */
  function Spared(bps: seq<Bp>, c: Choice): seq<Bp> {
    if bps == [] then [] else (if Chosen(c, bps[0]) then [] else [bps[0]]) + Spared(bps[1..], c)
  }

  lemma DeleteAtUnlinks(s: State, k: nat)
    requires k < |s.bps|
    ensures DeleteAt(s, k).bps == s.bps[..k] + s.bps[k + 1..] && DeleteAt(s, k).numBps == s.numBps - 1
  {
  }

  lemma DeleteRound(s: State, c: Choice, k: nat)
    requires k < |s.bps|
    ensures DeleteFrom(s, c, k) == if Chosen(c, s.bps[k]) then DeleteFrom(DeleteAt(s, k), c, k) else DeleteFrom(s, c, k + 1)
  {
    hide DeleteAt;
  }

  /** Deleting the current element while walking the list visits every element once: exactly
      the chosen breakpoints go, and the rest stay unchanged and in order. */
  lemma {:induction false} DeleteFromSpares(s: State, c: Choice, k: nat)
    requires k <= |s.bps|
    ensures DeleteFrom(s, c, k).bps == s.bps[..k] + Spared(s.bps[k..], c)
    ensures DeleteFrom(s, c, k).numBps - s.numBps == |DeleteFrom(s, c, k).bps| - |s.bps|
    decreases |s.bps| - k
  {
    if k < |s.bps| {
      SparedOne(s.bps, c, k);
      DeleteRound(s, c, k);
      if Chosen(c, s.bps[k]) {
        DeleteAtUnlinks(s, k);
        var s1 := DeleteAt(s, k);
        CutAt(s.bps, k);
        hide *;
        DeleteFromSpares(s1, c, k);
      } else {
        DeleteFromSpares(s, c, k + 1);
        hide *;
        KeptOne(s.bps[..k], s.bps[k], Spared(s.bps[k + 1..], c));
        assert s.bps[..k + 1] == s.bps[..k] + [s.bps[k]];
      }
    } else {
      assert s.bps[..k] + [] == s.bps;
    }
  }

  lemma CutAt(bps: seq<Bp>, k: nat)
    requires k < |bps|
    ensures var cut := bps[..k] + bps[k + 1..]; cut[..k] == bps[..k] && cut[k..] == bps[k + 1..]
  {
  }

  lemma KeptOne(a: seq<Bp>, b: Bp, c: seq<Bp>)
    ensures (a + [b]) + c == a + ([b] + c)
  {
  }

  lemma SparedOne(bps: seq<Bp>, c: Choice, k: nat)
    requires k < |bps|
    ensures Spared(bps[k..], c) == (if Chosen(c, bps[k]) then [] else [bps[k]]) + Spared(bps[k + 1..], c)
  {
    assert bps[k..][1..] == bps[k + 1..];
  }

  lemma {:induction false} NoneSpared(bps: seq<Bp>)
    ensures Spared(bps, Every) == []
  {
    if bps != [] { NoneSpared(bps[1..]); }
  }

  /** breakpoint_delete_all puts every original word back and leaves no register armed. */
  lemma DeleteAllRestores(s: State, orig: Code)
    requires Inv(s, orig)
    ensures DeleteFrom(s, Every, 0).bps == [] && DeleteFrom(s, Every, 0).numBps == 0
    ensures DeleteFrom(s, Every, 0).code == orig
    ensures NoneArmed(DeleteFrom(s, Every, 0).threads, Breaks)
  {
    var s' := DeleteFrom(s, Every, 0);
    DeleteFromSpares(s, Every, 0);
    NoneSpared(s.bps[0..]);
    DeleteFromKeeps(s, Every, 0, orig);
    assert s'.bps == [];
    NoPointsNoneArmed(s'.threads, Breaks, BpPoints(s'.bps));
    assert forall a :: !PatchedAt([], a);
    assert forall a :: a in s'.code ==> s'.code[a] == orig[a];
  }

  predicate NoneArmed(ts: seq<Thread>, b: Bank) {
    forall i, r :: 0 <= i < |ts| && 0 <= r < NUM_SLOTS ==> ts[i].regs.Get(b)[r].ctl == 0
  }

  lemma NoPointsNoneArmed(ts: seq<Thread>, b: Bank, pts: seq<Point>)
    requires BankOk(ts, b, pts) && pts == []
    ensures NoneArmed(ts, b)
  {
    forall i, r | 0 <= i < |ts| && 0 <= r < NUM_SLOTS ensures ts[i].regs.Get(b)[r].ctl == 0 {
      assert SlotOk(pts, ts[i], r, ts[i].regs.Get(b)[r]);
    }
  }

  // ----- when BRK says exactly "an enabled software breakpoint is here"

  predicate EnabledAt(bps: seq<Bp>, a: nat) {
    exists k :: 0 <= k < |bps| && !bps[k].hw && !bps[k].disabled && bps[k].location == a
  }

  ghost predicate CodeExact(s: State, orig: Code) {
    s.code.Keys == orig.Keys && forall a :: a in s.code ==> s.code[a] == if EnabledAt(s.bps, a) then BRK else orig[a]
  }

  /** Another enabled software breakpoint sits where the k-th one does. */
  predicate Shared(bps: seq<Bp>, k: nat)
    requires k < |bps|
  {
    exists j :: 0 <= j < |bps| && j != k && !bps[j].hw && !bps[j].disabled && bps[j].location == bps[k].location
  }

  /** Disabling a software breakpoint writes the original word even when another enabled
      one shares the address, so exactness survives exactly when none does. */
  lemma DisableExactIff(s: State, k: nat, orig: Code)
    requires Inv(s, orig) && CodeExact(s, orig) && k < |s.bps|
    requires !s.bps[k].hw && s.bps[k].location in s.code && orig[s.bps[k].location] != BRK
    ensures CodeExact(SetState(s, k, true), orig) <==> !Shared(s.bps, k)
  {
    var s' := SetState(s, k, true);
    var a := s.bps[k].location;
    assert s'.code[a] == orig[a];
    if Shared(s.bps, k) {
      var j :| 0 <= j < |s.bps| && j != k && !s.bps[j].hw && !s.bps[j].disabled && s.bps[j].location == a;
      assert s'.bps[j] == s.bps[j];
      assert EnabledAt(s'.bps, a);
    } else {
      assert !EnabledAt(s'.bps, a);
      forall x | x in s.code && x != a ensures EnabledAt(s.bps, x) == EnabledAt(s'.bps, x) {
        if EnabledAt(s.bps, x) {
          var j :| 0 <= j < |s.bps| && !s.bps[j].hw && !s.bps[j].disabled && s.bps[j].location == x;
          assert s'.bps[j] == s.bps[j];
        }
      }
    }
  }
}
