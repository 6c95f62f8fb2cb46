/** The values of the breakpoint and watchpoint engine and the meaning of its operations.

    A `State` is what one stopped debuggee looks like to the debugger: the two lists of
    points, the thread list with each thread's debug registers and stop flags, and the
    code words of the debuggee.  Every operation of `breakpoint.c` and `watchpoint.c` is a
    function from states to states here; class `Debuggee` performs them in place. */
module Engine {
  type Word = bv32

  /** BRK #0, the word a software breakpoint leaves in the code. */
  const BRK: Word := 0xd4200000

  /** Instruction words by address; an address outside the map is not mapped. */
  type Code = map<nat, Word>

  /** Reading unmapped memory leaves the caller's zero-initialised buffer alone. */
  function Fetch(code: Code, a: nat): Word {
    if a in code then code[a] else 0
  }

  /** Writing unmapped memory does nothing. */
  function Store(code: Code, a: nat, w: Word): Code {
    if a in code then code[a := w] else code
  }

  // ----- debug registers

  /** One control/value register pair of a thread. */
  datatype Slot = Slot(ctl: bv64, val: nat)

  const NUM_SLOTS: nat := 16

  type SlotBank = s: seq<Slot> | |s| == NUM_SLOTS witness seq(NUM_SLOTS, _ => Slot(0, 0))

  /** Which of the two register files: instruction breakpoints or data watchpoints. */
  datatype Bank = Breaks | Watches

  /** `step` is the software-step bit of MDSCR_EL1. */
  datatype DebugRegs = DebugRegs(breaks: SlotBank, watches: SlotBank, step: bool) {
    function Get(b: Bank): SlotBank {
      if b.Breaks? then breaks else watches
    }

    /** A write outside the bank, which no reachable state asks for, is left out. */
    function Put(b: Bank, r: int, s: Slot): DebugRegs {
      if !(0 <= r < NUM_SLOTS) then this
      else if b.Breaks? then this.(breaks := breaks[r := s]) else this.(watches := watches[r := s])
    }
  }

  // ----- threads

  datatype StepKind = StepNone | StepInto | StepOver

  /** The per-thread notes the exception handler keeps between stops. */
  datatype Flags = Flags(justHitWp: bool, justHitBp: bool, justHitSw: bool, lastWpLoc: nat, lastBpId: int,
                         isStepping: bool, stepKind: StepKind, justHitSs: bool, setTempSs: bool)

  const NO_FLAGS: Flags := Flags(false, false, false, 0, 0, false, StepNone, false, false)

  datatype Thread = Thread(port: nat, tid: nat, id: int, focused: bool, regs: DebugRegs, fl: Flags)

  /** Which threads a point is meant for. */
  datatype Target = All | Only(id: int, tid: nat)

  predicate Targets(g: Target, t: Thread) {
    g.All? || g.id == t.id
  }

  /** What a thread is looked for by. */
  datatype Sought = ById(id: int) | ByTid(tid: nat) | ByPort(port: nat) | ByFocus

  predicate Fits(q: Sought, t: Thread) {
    match q
    case ById(id) => t.id == id
    case ByTid(tid) => t.tid == tid
    case ByPort(port) => t.port == port
    case ByFocus => t.focused
  }

  /** find_with_cond: the first thread that fits, or the length of the list. */
  function Find(ts: seq<Thread>, q: Sought): (k: nat)
    ensures k <= |ts|
    ensures k < |ts| ==> Fits(q, ts[k])
    ensures forall i :: 0 <= i < k ==> !Fits(q, ts[i])
  {
    if ts == [] then 0 else if Fits(q, ts[0]) then 0 else 1 + Find(ts[1..], q)
  }

  function FindId(ts: seq<Thread>, id: int): nat {
    Find(ts, ById(id))
  }

  /** Every rebuild of the thread list numbers the threads from 1. */
  predicate Numbered(ts: seq<Thread>) {
    forall i :: 0 <= i < |ts| ==> ts[i].id == i + 1
  }

  function Arm(t: Thread, b: Bank, r: int, s: Slot): Thread {
    t.(regs := t.regs.Put(b, r, s))
  }

  /** Disarming clears the control register and leaves the value register. */
  function Disarm(t: Thread, b: Bank, r: int): Thread {
    if !(0 <= r < NUM_SLOTS) then t else Arm(t, b, r, t.regs.Get(b)[r].(ctl := 0))
  }

  function ArmAll(ts: seq<Thread>, g: Target, b: Bank, r: int, s: Slot): seq<Thread> {
    seq(|ts|, i requires 0 <= i < |ts| => if Targets(g, ts[i]) then Arm(ts[i], b, r, s) else ts[i])
  }

  function DisarmAll(ts: seq<Thread>, g: Target, b: Bank, r: int): seq<Thread> {
    seq(|ts|, i requires 0 <= i < |ts| => if Targets(g, ts[i]) then Disarm(ts[i], b, r) else ts[i])
  }

  // ----- points

  /** `reg` is -1 for a software breakpoint. */
  datatype Bp = Bp(id: int, location: nat, orig: Word, hits: nat, disabled: bool, temporary: bool,
                   hw: bool, reg: int, stepping: bool, target: Target, slot: Slot)
  {
    predicate Normal() { !temporary && !stepping }
  }

  datatype Wp = Wp(id: int, location: nat, aligned: nat, hits: nat, reg: nat, target: Target, slot: Slot)

  /** BT | BAS | PMC | E: unlinked address match on all four bytes, in EL0, enabled. */
  const BREAK_CONTROL: bv64 := (0xf << 5) | (2 << 1) | 1

  /** BAS | LSC | PAC | E for `len` bytes from the byte `low` of an aligned double word. */
  function WatchControl(low: bv64, len: bv64, lsc: bv64): bv64
    requires low < 8 && len <= 8 && lsc < 4
  {
    ((((1 << len) - 1) << low) << 5) | (lsc << 3) | (2 << 1) | 1
  }

  function WatchSlot(loc: nat, len: nat, lsc: nat): Slot
    requires len <= 8 && lsc < 4
  {
    Slot(WatchControl((loc % 8) as bv64, len as bv64, lsc as bv64), loc - loc % 8)
  }

  datatype State = State(bps: seq<Bp>, wps: seq<Wp>, threads: seq<Thread>, code: Code,
                         nextBp: int, nextWp: int, numBps: int, numWps: int, hwBps: nat, hwWps: nat)

  // ----- searching the breakpoint list

  datatype Query = At(loc: nat) | NormalAt(loc: nat) | SteppingAt(loc: nat) | WithId(id: int)

  predicate Matches(q: Query, b: Bp) {
    match q
    case At(a) => b.location == a
    case NormalAt(a) => b.location == a && b.Normal()
    case SteppingAt(a) => b.location == a && b.stepping
    case WithId(id) => b.id == id
  }

  /** The first breakpoint in list order that answers `q`, or the length of the list. */
  function First(bps: seq<Bp>, q: Query): (k: nat)
    ensures k <= |bps|
    ensures k < |bps| ==> Matches(q, bps[k])
    ensures forall i :: 0 <= i < k ==> !Matches(q, bps[i])
  {
    if bps == [] then 0 else if Matches(q, bps[0]) then 0 else 1 + First(bps[1..], q)
  }

  // ----- allocating registers

  predicate Owned(regs: seq<int>, r: int) {
    exists k :: 0 <= k < |regs| && regs[k] == r
  }

  /** The least register below `n` that no listed point owns, or -1. */
  function FreeReg(regs: seq<int>, n: nat, from: nat): (r: int)
    requires from <= n
    ensures -1 <= r < n
    ensures r == -1 ==> forall i :: from <= i < n ==> Owned(regs, i)
    ensures r != -1 ==> from <= r && !Owned(regs, r) && forall i :: from <= i < r ==> Owned(regs, i)
    decreases n - from
  {
    if from == n then -1 else if Owned(regs, from) then FreeReg(regs, n, from + 1) else from
  }

  function BpRegs(bps: seq<Bp>): seq<int> {
    seq(|bps|, i requires 0 <= i < |bps| => if bps[i].hw then bps[i].reg else -1)
  }

  function WpRegs(wps: seq<Wp>): seq<int> {
    seq(|wps|, i requires 0 <= i < |wps| => wps[i].reg)
  }

  // ----- the shape every reachable state has

  predicate Shaped(s: State) {
    && s.hwBps <= NUM_SLOTS && s.hwWps <= NUM_SLOTS
    && (forall k :: 0 <= k < |s.bps| ==> (if s.bps[k].hw then 0 <= s.bps[k].reg < s.hwBps else s.bps[k].reg == -1))
    && (forall k :: 0 <= k < |s.wps| ==> 0 <= s.wps[k].reg < s.hwWps)
    && Numbered(s.threads)
  }

  // ----- breakpoint operations

  function RemoveAt<T>(xs: seq<T>, k: nat): seq<T>
    requires k < |xs|
  {
    xs[..k] + xs[k + 1..]
  }

  /** bp_set_state_internal on the k-th listed breakpoint. */
  function SetState(s: State, k: nat, disabled: bool): (s': State)
    requires k < |s.bps|
    ensures |s'.bps| == |s.bps| && |s'.threads| == |s.threads|
  {
    var b := s.bps[k];
    var s1 := if b.hw then
        s.(threads := if disabled then DisarmAll(s.threads, b.target, Breaks, b.reg)
                      else ArmAll(s.threads, b.target, Breaks, b.reg, b.slot))
      else
        s.(code := Store(s.code, b.location, if disabled then b.orig else BRK));
    s1.(bps := s.bps[k := b.(disabled := disabled)])
  }

  /** bp_delete_internal: disable, then unlink. */
  function DeleteAt(s: State, k: nat): (s': State)
    requires k < |s.bps|
    ensures |s'.bps| == |s.bps| - 1 && |s'.threads| == |s.threads|
  {
    var s1 := SetState(s, k, true);
    s1.(bps := RemoveAt(s1.bps, k), numBps := s1.numBps - 1)
  }

  /** Which breakpoints a loop over the list acts on. */
  datatype Choice = Every | Normals | Steppings | NonSteppings

  predicate Chosen(c: Choice, b: Bp) {
    match c
    case Every => true
    case Normals => b.Normal()
    case Steppings => b.stepping
    case NonSteppings => !b.stepping
  }

  function SetChosen(s: State, c: Choice, disabled: bool, k: nat): (s': State)
    requires k < |s.bps|
    ensures |s'.bps| == |s.bps| && |s'.threads| == |s.threads|
  {
    if Chosen(c, s.bps[k]) then SetState(s, k, disabled) else s
  }

  /** The enable and disable loops, from the k-th list element on. */
  function SetStates(s: State, c: Choice, disabled: bool, k: nat): (s': State)
    requires k <= |s.bps|
    ensures |s'.bps| == |s.bps| && |s'.threads| == |s.threads|
    decreases |s.bps| - k
  {
    if k == |s.bps| then s else SetStates(SetChosen(s, c, disabled, k), c, disabled, k + 1)
  }

  /** The delete loops: the element after a deleted one is examined next. */
  function DeleteFrom(s: State, c: Choice, k: nat): (s': State)
    requires k <= |s.bps|
    ensures |s'.threads| == |s.threads|
    decreases |s.bps| - k
  {
    if k == |s.bps| then s
    else if Chosen(c, s.bps[k]) then DeleteFrom(DeleteAt(s, k), c, k)
    else DeleteFrom(s, c, k + 1)
  }

  const ALL_THREADS: int := -1

  /** The point's target for the user's thread argument; none if that thread is not listed. */
  function TargetFor(ts: seq<Thread>, thread: int): Target
    requires thread == ALL_THREADS || FindId(ts, thread) < |ts|
  {
    if thread == ALL_THREADS then All else Only(thread, ts[FindId(ts, thread)].tid)
  }

  predicate KnownThread(ts: seq<Thread>, thread: int) {
    thread == ALL_THREADS || FindId(ts, thread) < |ts|
  }

  /** The breakpoint `breakpoint_new` builds; its registers are written by `AddBp`. */
  function MakeBp(s: State, loc: nat, temporary: bool, stepping: bool, thread: int): Bp
    requires KnownThread(s.threads, thread)
  {
    var reg := FreeReg(BpRegs(s.bps), s.hwBps, 0);
    var dup := First(s.bps, At(loc));
    Bp(s.nextBp, loc, if dup < |s.bps| then s.bps[dup].orig else Fetch(s.code, loc), 0, false,
       temporary, reg != -1, reg, stepping, TargetFor(s.threads, thread),
       if reg != -1 then Slot(BREAK_CONTROL, loc - loc % 4) else Slot(0, 0))
  }

  /** breakpoint_at_address and set_stepping_breakpoint; an unknown thread changes nothing. */
  function AddBp(s: State, loc: nat, temporary: bool, stepping: bool, thread: int): (s': State)
    ensures |s'.threads| == |s.threads|
  {
    if !KnownThread(s.threads, thread) then s
    else
      var b := MakeBp(s, loc, temporary, stepping, thread);
      s.(bps := s.bps + [b],
         threads := if b.hw then ArmAll(s.threads, b.target, Breaks, b.reg, b.slot) else s.threads,
         code := if b.hw then s.code else Store(s.code, loc, BRK),
         nextBp := if temporary then s.nextBp else s.nextBp + 1,
         numBps := s.numBps + 1)
  }

  /** breakpoint_hit on the k-th breakpoint. */
  function HitAt(s: State, k: nat): (s': State)
    requires k < |s.bps|
    ensures |s'.threads| == |s.threads|
  {
    if s.bps[k].temporary then DeleteAt(s, k)
    else s.(bps := s.bps[k := s.bps[k].(hits := s.bps[k].hits + 1)])
  }

  /** breakpoint_enable, breakpoint_disable: by ID, nothing if there is none. */
  function SetStateById(s: State, id: int, disabled: bool): (s': State)
    ensures |s'.bps| == |s.bps| && |s'.threads| == |s.threads|
  {
    var k := First(s.bps, WithId(id));
    if k < |s.bps| then SetState(s, k, disabled) else s
  }

  /** breakpoint_delete: by ID, nothing if there is none. */
  function DeleteById(s: State, id: int): (s': State)
    ensures |s'.threads| == |s.threads|
  {
    var k := First(s.bps, WithId(id));
    if k < |s.bps| then DeleteAt(s, k) else s
  }

  // ----- watchpoint operations

  predicate GoodWatch(s: State, len: nat, lsc: nat, thread: int, readable: bool) {
    && 1 <= len <= 8 && lsc < 4 && readable
    && KnownThread(s.threads, thread)
    && FreeReg(WpRegs(s.wps), s.hwWps, 0) != -1
  }

  function MakeWp(s: State, loc: nat, len: nat, lsc: nat, thread: int, readable: bool): Wp
    requires GoodWatch(s, len, lsc, thread, readable)
  {
    Wp(s.nextWp, loc, loc - loc % 8, 0, FreeReg(WpRegs(s.wps), s.hwWps, 0), TargetFor(s.threads, thread),
       WatchSlot(loc, len, lsc))
  }

  /** watchpoint_at_address; a bad length, an unknown thread, memory that cannot be read or a full
      register file changes nothing. */
  function AddWp(s: State, loc: nat, len: nat, lsc: nat, thread: int, readable: bool): (s': State)
    ensures |s'.threads| == |s.threads|
  {
    if !GoodWatch(s, len, lsc, thread, readable) then s
    else
      var w := MakeWp(s, loc, len, lsc, thread, readable);
      s.(wps := s.wps + [w], threads := ArmAll(s.threads, w.target, Watches, w.reg, w.slot),
         nextWp := s.nextWp + 1, numWps := s.numWps + 1)
  }

  function FirstWp(wps: seq<Wp>, id: int): (k: nat)
    ensures k <= |wps|
    ensures k < |wps| ==> wps[k].id == id
    ensures forall i :: 0 <= i < k ==> wps[i].id != id
  {
    if wps == [] then 0 else if wps[0].id == id then 0 else 1 + FirstWp(wps[1..], id)
  }

  function FirstWpAt(wps: seq<Wp>, aligned: nat): (k: nat)
    ensures k <= |wps|
    ensures k < |wps| ==> wps[k].aligned == aligned
    ensures forall i :: 0 <= i < k ==> wps[i].aligned != aligned
  {
    if wps == [] then 0 else if wps[0].aligned == aligned then 0 else 1 + FirstWpAt(wps[1..], aligned)
  }

  /** watchpoint_hit on the k-th watchpoint. */
  function HitWpAt(s: State, k: nat): (s': State)
    requires k < |s.wps|
    ensures |s'.threads| == |s.threads|
  {
    s.(wps := s.wps[k := s.wps[k].(hits := s.wps[k].hits + 1)])
  }

  /** wp_delete_internal. */
  function DeleteWpAt(s: State, k: nat): (s': State)
    requires k < |s.wps|
    ensures |s'.wps| == |s.wps| - 1
  {
    s.(wps := RemoveAt(s.wps, k), numWps := s.numWps - 1,
       threads := DisarmAll(s.threads, s.wps[k].target, Watches, s.wps[k].reg))
  }

  /** watchpoint_delete: by ID, nothing if there is none. */
  function DeleteWpById(s: State, id: int): (s': State)
    ensures |s'.threads| == |s.threads|
  {
    var k := FirstWp(s.wps, id);
    if k < |s.wps| then DeleteWpAt(s, k) else s
  }

  // ----- the shape is kept

  lemma ArmAllNumbered(ts: seq<Thread>, g: Target, b: Bank, r: int, s: Slot)
    requires Numbered(ts)
    ensures Numbered(ArmAll(ts, g, b, r, s)) && Numbered(DisarmAll(ts, g, b, r))
  {
  }

  lemma SetStateShaped(s: State, k: nat, disabled: bool)
    requires Shaped(s) && k < |s.bps|
    ensures Shaped(SetState(s, k, disabled))
  {
    ArmAllNumbered(s.threads, s.bps[k].target, Breaks, s.bps[k].reg, s.bps[k].slot);
  }

  lemma UnlinkShaped(s: State, k: nat)
    requires Shaped(s) && k < |s.bps|
    ensures Shaped(s.(bps := RemoveAt(s.bps, k), numBps := s.numBps - 1))
  {
  }

  lemma AddBpShaped(s: State, loc: nat, temporary: bool, stepping: bool, thread: int)
    requires Shaped(s)
    ensures Shaped(AddBp(s, loc, temporary, stepping, thread))
  {
    if KnownThread(s.threads, thread) {
      var b := MakeBp(s, loc, temporary, stepping, thread);
      ArmAllNumbered(s.threads, b.target, Breaks, b.reg, b.slot);
    }
  }

  lemma AddWpShaped(s: State, loc: nat, len: nat, lsc: nat, thread: int, readable: bool)
    requires Shaped(s)
    ensures Shaped(AddWp(s, loc, len, lsc, thread, readable))
  {
    if GoodWatch(s, len, lsc, thread, readable) {
      var w := MakeWp(s, loc, len, lsc, thread, readable);
      ArmAllNumbered(s.threads, w.target, Watches, w.reg, w.slot);
    }
  }

  lemma DeleteWpShaped(s: State, k: nat)
    requires Shaped(s) && k < |s.wps|
    ensures Shaped(DeleteWpAt(s, k))
  {
    ArmAllNumbered(s.threads, s.wps[k].target, Watches, s.wps[k].reg, s.wps[k].slot);
  }
}
