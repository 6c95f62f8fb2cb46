/** Breakpoint numbers: permanent breakpoints never share one, whatever is set, hit and deleted. */
module Ids {
  import opened Engine
  import opened EngineInvariants
  import opened Stops
  import opened Transparency

  /** The numbers of the permanent breakpoints. */
  ghost function Numbers(bps: seq<Bp>): multiset<int> {
    if bps == [] then multiset{} else Numbers(bps[1..]) + if bps[0].temporary then multiset{} else multiset{bps[0].id}
  }

  /** Each is used at most once and lies below the next to be given out. */
  ghost predicate IdsOk(s: State) {
    forall n :: n in Numbers(s.bps) ==> n < s.nextBp && Numbers(s.bps)[n] == 1
  }

  lemma {:induction false} NumbersJoin(a: seq<Bp>, b: seq<Bp>)
    ensures Numbers(a + b) == Numbers(a) + Numbers(b)
  {
    if a == [] { assert a + b == b; }
    else {
      assert (a + b)[1..] == a[1..] + b;
      NumbersJoin(a[1..], b);
    }
  }

  lemma NumbersAt(bps: seq<Bp>, k: nat)
    requires k < |bps|
    ensures Numbers(bps) == Numbers(bps[..k]) + Numbers([bps[k]]) + Numbers(bps[k + 1..])
  {
    hide Numbers;
    assert bps == bps[..k] + [bps[k]] + bps[k + 1..];
    NumbersJoin(bps[..k] + [bps[k]], bps[k + 1..]);
    NumbersJoin(bps[..k], [bps[k]]);
  }

  lemma NumberOf(b: Bp)
    requires !b.temporary
    ensures Numbers([b]) == multiset{b.id}
  {
    assert [b][1..] == [];
  }

  /** Distinct numbers, said of the list itself. */
  lemma NumbersDistinct(s: State, i: nat, j: nat)
    requires IdsOk(s) && i < j < |s.bps| && !s.bps[i].temporary && !s.bps[j].temporary
    ensures s.bps[i].id != s.bps[j].id && s.bps[i].id < s.nextBp
  {
    hide Numbers;
    var bps := s.bps;
    NumbersAt(bps, i);
    NumbersAt(bps[i + 1..], j - i - 1);
    assert bps[i + 1..][j - i - 1] == bps[j];
    NumberOf(bps[i]);
    NumberOf(bps[j]);
    assert Numbers(bps)[bps[i].id] >= 1 + Numbers(bps[i + 1..])[bps[i].id];
    assert Numbers(bps[i + 1..])[bps[j].id] >= 1;
    assert bps[i].id in Numbers(bps);
  }

  /** The list lost some breakpoints at most, and no number was given out. */
  ghost predicate Fewer(s: State, s': State) {
    Numbers(s'.bps) <= Numbers(s.bps) && s'.nextBp == s.nextBp
  }

  lemma FewerKeeps(s: State, s': State)
    requires IdsOk(s) && Fewer(s, s')
    ensures IdsOk(s')
  {
    forall n | n in Numbers(s'.bps) ensures n < s'.nextBp && Numbers(s'.bps)[n] == 1 {
      assert n in Numbers(s.bps);
    }
  }

  lemma Renumbered(bps: seq<Bp>, k: nat, b: Bp)
    requires k < |bps| && b.id == bps[k].id && b.temporary == bps[k].temporary
    ensures Numbers(bps[k := b]) == Numbers(bps)
  {
    var bps' := bps[k := b];
    NumbersAt(bps, k);
    NumbersAt(bps', k);
    assert bps'[..k] == bps[..k] && bps'[k + 1..] == bps[k + 1..];
  }

  lemma SetStateFewer(s: State, k: nat, disabled: bool)
    requires k < |s.bps|
    ensures Fewer(s, SetState(s, k, disabled))
  {
    Renumbered(s.bps, k, s.bps[k].(disabled := disabled));
  }

  lemma DeleteAtFewer(s: State, k: nat)
    requires k < |s.bps|
    ensures Fewer(s, DeleteAt(s, k))
  {
    var b := s.bps[k].(disabled := true);
    Renumbered(s.bps, k, b);
    var bps := s.bps[k := b];
    NumbersAt(bps, k);
    NumbersJoin(bps[..k], bps[k + 1..]);
  }

  lemma HitAtFewer(s: State, k: nat)
    requires k < |s.bps|
    ensures Fewer(s, HitAt(s, k))
  {
    hide DeleteAt;
    if s.bps[k].temporary { DeleteAtFewer(s, k); } else { Renumbered(s.bps, k, s.bps[k].(hits := s.bps[k].hits + 1)); }
  }

  lemma {:induction false} SetStatesFewer(s: State, c: Choice, disabled: bool, k: nat)
    requires k <= |s.bps|
    ensures Fewer(s, SetStates(s, c, disabled, k))
    decreases |s.bps| - k
  {
    hide Numbers, SetState;
    if k < |s.bps| {
      if Chosen(c, s.bps[k]) { SetStateFewer(s, k, disabled); }
      SetStatesFewer(SetChosen(s, c, disabled, k), c, disabled, k + 1);
    }
  }

  lemma {:induction false} DeleteFromFewer(s: State, c: Choice, k: nat)
    requires k <= |s.bps|
    ensures Fewer(s, DeleteFrom(s, c, k))
    decreases |s.bps| - k
  {
    hide Numbers, DeleteAt;
    if k < |s.bps| {
      if Chosen(c, s.bps[k]) {
        DeleteAtFewer(s, k);
        DeleteFromFewer(DeleteAt(s, k), c, k);
      } else {
        DeleteFromFewer(s, c, k + 1);
      }
    }
  }

  lemma ByIdFewer(s: State, id: int, disabled: bool)
    ensures Fewer(s, SetStateById(s, id, disabled)) && Fewer(s, DeleteById(s, id))
  {
    hide Numbers, SetState, DeleteAt;
    var k := First(s.bps, WithId(id));
    if k < |s.bps| {
      SetStateFewer(s, k, disabled);
      DeleteAtFewer(s, k);
    }
  }

  lemma AddBpIds(s: State, loc: nat, temporary: bool, stepping: bool, thread: int)
    requires IdsOk(s)
    ensures IdsOk(AddBp(s, loc, temporary, stepping, thread))
  {
    if KnownThread(s.threads, thread) {
      var b := MakeBp(s, loc, temporary, stepping, thread);
      NumbersJoin(s.bps, [b]);
      assert [b][1..] == [];
    }
  }

  lemma HandleFewer(s: State, ti: nat, exc: Exc, pc: nat)
    requires ti < |s.threads|
    ensures Fewer(s, Handle(s, ti, exc, pc).s)
  {
    hide Numbers, HandleHit, HandleSingleStep, HitAt, First;
    match exc
    case Signal(_) =>
    case Other =>
    case WatchHit(_) =>
    case Break(subcode) =>
      if subcode != 0 {
        HandleHitFewer(WithFlags(s, ti, s.threads[ti].fl.(justHitBp := true)), ti, subcode);
      } else if !s.threads[ti].fl.justHitWp {
        var k := First(s.bps, NormalAt(pc));
        var hit := s.threads[ti].fl.isStepping && k < |s.bps|;
        if hit { HitAtFewer(s, k); }
        HandleSingleStepFewer(if hit then HitAt(s, k) else s, ti);
      }
  }

  lemma HandleSingleStepFewer(s: State, ti: nat)
    requires ti < |s.threads|
    ensures Fewer(s, HandleSingleStep(s, ti).s)
  {
    hide Numbers, SetStates, SetStateById;
    SetStatesFewer(s, Normals, false, 0);
    var s1 := SetStates(s, Normals, false, 0);
    ByIdFewer(s1, s1.threads[ti].fl.lastBpId, false);
  }

  lemma HandleHitFewer(s: State, ti: nat, addr: nat)
    requires ti < |s.threads|
    ensures Fewer(s, HandleHit(s, ti, addr).s)
  {
    hide Numbers, HitAt, SetStateById;
    var step := First(s.bps, SteppingAt(addr));
    var s1 := if step == |s.bps| then s else SteppingHit(s, ti, step);
    if step < |s.bps| { HitAtFewer(s, step); }
    var k := First(s1.bps, NormalAt(addr));
    if k < |s1.bps| {
      HitAtFewer(s1, k);
      var s2 := HitAt(s1, k);
      ByIdFewer(WithFlags(s2, ti, s2.threads[ti].fl.(justHitSw := true)), s1.bps[k].id, true);
    }
  }

  lemma DeliverIds<M>(cpu: Cpu<M>, r: Run<M>, port: nat, exc: Exc)
    requires IdsOk(r.s)
    ensures IdsOk(Deliver(cpu, r, port, exc).s)
  {
    hide Numbers, Handle, SetFocus;
    var s1 := FocusOn(r.s, port);
    var f := FirstFocused(s1.threads);
    if f < |s1.threads| {
      HandleFewer(s1, f, exc, cpu.pc(r.m, f));
      FewerKeeps(r.s, Handle(s1, f, exc, cpu.pc(r.m, f)).s);
    }
  }

  lemma PrepareIds(s: State, ti: nat, over: bool, pc: nat)
    requires IdsOk(s) && ti < |s.threads|
    ensures IdsOk(Prepare(s, ti, over, pc))
  {
    hide Numbers, SetStates, AddBp, AtCall;
    SetStatesFewer(s, NonSteppings, true, 0);
    var s1 := SetStates(s, NonSteppings, true, 0);
    FewerKeeps(s, s1);
    var s2 := WithFlags(s1, ti, s1.threads[ti].fl.(stepKind := if over then StepOver else StepInto));
    AddBpIds(s2, pc + 4, true, true, s2.threads[ti].id);
  }

  lemma TurnIds<M>(cpu: Cpu<M>, r: Run<M>, ti: nat)
    requires IdsOk(r.s) && ti < |r.s.threads|
    ensures IdsOk(Turn(cpu, r, ti).s)
  {
    hide Numbers, Deliver;
    var pc := cpu.pc(r.m, ti);
    var word := Fetch(r.s.code, pc);
    var t := r.s.threads[ti];
    DeliverIds(cpu, r, t.port, Break(pc));
    var r1 := Run(WithStep(r.s, ti, false), cpu.exec(r.m, ti, word), r.running, r.trace + [Insn(ti, pc, word)]);
    DeliverIds(cpu, r1, t.port, Break(0));
  }

  lemma NextIds<M>(cpu: Cpu<M>, r: Run<M>, e: Event)
    requires IdsOk(r.s)
    ensures IdsOk(Next(cpu, r, e).s)
  {
    hide Numbers, Turn, Deliver, AddBp, DeleteFrom, DeleteById, Prepare, SetFocus;
    match e
    case Tick(ti) => if r.running && ti < |r.s.threads| { TurnIds(cpu, r, ti); }
    case Raise(port, exc) => DeliverIds(cpu, r, port, exc);
    case SetBp(loc, thread) => AddBpIds(r.s, loc, false, false, thread);
    case DeleteBp(id) => ByIdFewer(r.s, id, true); FewerKeeps(r.s, DeleteById(r.s, id));
    case DeleteAllBps => DeleteFromFewer(r.s, Every, 0); FewerKeeps(r.s, DeleteFrom(r.s, Every, 0));
    case Continue => DeleteFromFewer(r.s, Steppings, 0); FewerKeeps(r.s, DeleteFrom(r.s, Steppings, 0));
    case Step(over, pc) =>
      var f := FirstFocused(r.s.threads);
      if f < |r.s.threads| { PrepareIds(r.s, f, over, pc); }
    case _ =>
  }

  /** In every run, permanent breakpoints keep pairwise distinct numbers below the next one. */
  lemma {:induction false} RunsKeepIds<M>(cpu: Cpu<M>, r: Run<M>, es: seq<Event>)
    requires IdsOk(r.s)
    ensures IdsOk(RunAll(cpu, r, es).s)
    decreases |es|
  {
    hide Numbers, Next;
    if es != [] {
      RunsKeepIds(cpu, r, es[..|es| - 1]);
      NextIds(cpu, RunAll(cpu, r, es[..|es| - 1]), es[|es| - 1]);
    }
  }

  /** A temporary breakpoint takes the next number without using it up: the permanent breakpoint set
      after it has the same one. */
  lemma TemporarySharesNumber(s: State, loc: nat, loc2: nat)
    ensures var s2 := AddBp(AddBp(s, loc, true, true, ALL_THREADS), loc2, false, false, ALL_THREADS);
      var n := |s.bps|;
      |s2.bps| == n + 2 && s2.bps[n].id == s2.bps[n + 1].id == s.nextBp && s2.bps[n].temporary && !s2.bps[n + 1].temporary
  {
    var s1 := AddBp(s, loc, true, true, ALL_THREADS);
    assert s1.bps == s.bps + [MakeBp(s, loc, true, true, ALL_THREADS)];
    assert AddBp(s1, loc2, false, false, ALL_THREADS).bps == s1.bps + [MakeBp(s1, loc2, false, false, ALL_THREADS)];
  }
}
