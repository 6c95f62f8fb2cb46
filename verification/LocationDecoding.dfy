/** `decode_location_description` as the loop it is: a moving node pointer, a stack array and an
    index. An access outside the array ends the run as a fault. */
module LocationDecoding {
  import opened Arithmetic
  import opened Longs
  import opened Dwarf
  import opened LocationLists

  lemma TwoApart(sp: nat)
    ensures U32(sp - 2) != U32(sp)
  {
    assert (sp - (sp - 2)) % TWO_32 == 2;
  }

  /** The locals of the function. Of the text buffer only how far it is written. */
  class Stack {
    const cells: array<int>
    var sp: nat
    var text: nat

    constructor ()
      ensures View() == Start().s && fresh(cells)
    {
      cells := new int[SLOTS](_ => 0);
      sp, text := 0, 0;
      new;
      assert cells[..] == seq(SLOTS, _ => 0);
    }

    ghost function View(): Slots
      reads this, cells
    {
      Slots(sp, cells[..], text)
    }

    method Push(v: int) returns (bad: bool)
      modifies this, cells
      ensures Dwarf.Push(old(View()), v) == if bad then Bad else Good(View())
    {
      var top := U32(sp + 1);
      if top >= cells.Length { return true; }
      sp := top;
      cells[sp] := v;
      bad := false;
    }

    method PushCopy(depth: nat) returns (bad: bool)
      modifies this, cells
      ensures Dwarf.PushCopy(old(View()), depth) == if bad then Bad else Good(View())
    {
      var from := U32(sp - depth);
      if from >= cells.Length { return true; }
      bad := Push(cells[from]);
    }

    method BinaryTop(b: BinaryOp) returns (bad: bool)
      modifies this, cells
      ensures ExecBinary(old(View()), b) == if bad then Bad else Good(View())
    {
      hide ApplyBinary;
      var under, top := U32(sp - 1), U32(sp);
      if under >= cells.Length || top >= cells.Length { return true; }
      var v := ApplyBinary(b, cells[under], cells[top]);
      if v.None? { return true; }
      cells[under] := v.value;
      sp := under;
      bad := false;
    }

    method SetCell(i: nat, v: int)
      requires i < cells.Length
      modifies cells
      ensures cells[..] == old(cells[..])[i := v]
    {
      cells[i] := v;
    }

    method SwapTop() returns (bad: bool)
      modifies cells
      ensures ExecSwap(old(View())) == if bad then Bad else Good(View())
    {
      var under, top := U32(sp - 1), U32(sp);
      if under >= cells.Length || top >= cells.Length { return true; }
      var t := cells[top];
      SetCell(top, cells[under]);
      SetCell(under, t);
      bad := false;
    }

    method RotTop() returns (bad: bool)
      modifies cells
      ensures ExecRot(old(View())) == if bad then Bad else Good(View())
    {
      TwoApart(sp);
      hide U32;
      var third, under, top := U32(sp - 2), U32(sp - 1), U32(sp);
      if third >= cells.Length || under >= cells.Length || top >= cells.Length { return true; }
      var t := cells[top];
      ghost var v := cells[third];
      SetCell(top, cells[under]);
      assert cells[third] == cells[..][third] == v;
      SetCell(under, cells[third]);
      SetCell(third, t);
      bad := false;
    }

    method DerefTop(bytes: nat, env: Env) returns (bad: bool)
      modifies this, cells
      ensures ExecDeref(old(View()), bytes, env) == if bad then Bad else Good(View())
    {
      hide Load, TwoTo;
      var top := U32(sp);
      if top >= cells.Length { return true; }
      var data := Load(cells[top], env);
      if 1 <= bytes < 8 { bad := Push(data % TwoTo(8 * bytes)); }
      else if bytes == 8 { bad := Push(data); }
      else { bad := false; }
    }

    /** An operation on the top alone. */
    method OnTop(op: Op, env: Env) returns (bad: bool)
      requires op.Unary? || op.PlusUconst?
      modifies cells
      ensures Exec(op, old(View()), env) == if bad then Bad else Good(View())
    {
      hide ApplyUnary;
      var top := U32(sp);
      if top >= cells.Length { return true; }
      match op
      case Unary(u) => cells[top] := ApplyUnary(u, cells[top]); bad := false;
      case PlusUconst(n) => cells[top] := Wrap(cells[top] + Wrap(n)); bad := false;
    }

    /** strcat: past the buffer's end the run faults. */
    method Append(n: nat, ghost pc: nat) returns (bad: bool)
      modifies this`text
      ensures Dwarf.Append(pc, old(View()), n) == if bad then Fault else Machine.On(pc, View())
    {
      if text + n >= BUFFER { return true; }
      text := text + n;
      bad := false;
    }

    /** The cases of the switch that do not move the node pointer. */
    method ExecOp(op: Op, env: Env) returns (bad: bool)
      modifies this, cells
      ensures Exec(op, old(View()), env) == if bad then Bad else Good(View())
    {
      hide ExecDeref, Dwarf.PushCopy, ExecSwap, ExecRot, ExecBinary, Dwarf.Push, PushValue;
      match op
      case Deref => bad := DerefTop(8, env);
      case DerefSize(bytes) => bad := DerefTop(bytes % 256, env);
      case Dup => bad := PushCopy(0);
      case Drop => sp := U32(sp - 1); bad := false;
      case Over => bad := PushCopy(1);
      case Pick(depth) => bad := PushCopy(depth % 256);
      case Swap => bad := SwapTop();
      case Rot => bad := RotTop();
      case Unary(_) => bad := OnTop(op, env);
      case Binary(b) => bad := BinaryTop(b);
      case PlusUconst(_) => bad := OnTop(op, env);
      case Bra(_) => bad := false;
      case Jump(_) => bad := false;
      case StackValue => bad := false;
      case Nop => bad := false;
      case _ => bad := Push(PushValue(op, env));
    }
  }

  /** Walking `skip` nodes forward; past the end there is no node to take `next` of. */
  method Forward(ld: LocDesc, skip: nat, ghost nodes: seq<LocDesc>, ghost pc: nat) returns (bad: bool, to: LocDesc?)
    requires Linked(nodes) && pc < |nodes| && ld == nodes[pc]
    ensures bad <==> pc + skip > |nodes|
    ensures !bad ==> to == if pc + skip < |nodes| then nodes[pc + skip] else null
  {
    to := ld;
    var i := 0;
    while i < skip
      invariant i <= skip && pc + i <= |nodes| && to == if pc + i < |nodes| then nodes[pc + i] else null
    {
      if to == null { return true, null; }
      to := to.next;
      i := i + 1;
    }
    bad := false;
  }

  /** A negative skip walks back one node less than it says. */
  method Backward(ld: LocDesc, skip: int, ghost nodes: seq<LocDesc>, ghost pc: nat) returns (bad: bool, to: LocDesc?)
    requires Linked(nodes) && pc < |nodes| && ld == nodes[pc] && skip < 0
    ensures bad <==> pc + skip + 1 < -1
    ensures !bad ==> to == if pc + skip + 1 >= 0 then nodes[pc + skip + 1] else null
  {
    to := ld;
    var left := skip + 1;
    while left != 0
      invariant skip < left <= 0 && -1 <= pc + skip + 1 - left
      invariant to == if pc + skip + 1 - left >= 0 then nodes[pc + skip + 1 - left] else null
      decreases -left
    {
      if to == null { return true, null; }
      to := to.prev;
      left := left + 1;
    }
    bad := false;
  }

  /** The node at `pc`, none behind the last. */
  ghost function NodeAt(nodes: seq<LocDesc>, pc: nat): LocDesc? {
    if pc < |nodes| then nodes[pc] else null
  }

  /** At most `fuel` operations. */
  method Decode(first: LocDesc?, env: Env, fuel: nat, ghost nodes: seq<LocDesc>) returns (m: Machine)
    requires Linked(nodes) && Heads(nodes, first)
    ensures !m.On? ==> m == Steps(OpsOf(nodes), Start(), env, fuel)
    ensures m.On? ==> Steps(OpsOf(nodes), Start(), env, fuel).On?
  {
    hide Step, Steps, OpsOf, Linked;
    var stack := new Stack();
    assert first == NodeAt(nodes, 0);
    assert Start() == Machine.On(0, stack.View());
    hide Heads, NodeAt, Start, Stack.View;
    var ld := first;
    var left := fuel;
    ghost var ops := OpsOf(nodes);
    ghost var pc: nat := 0;
    m := Start();
    while left > 0
      invariant pc <= |nodes| && ld == NodeAt(nodes, pc) && fresh(stack) && fresh(stack.cells)
      invariant Steps(ops, Machine.On(pc, stack.View()), env, left) == Steps(ops, Start(), env, fuel)
      decreases left
    {
      StepsOne(ops, Machine.On(pc, stack.View()), env, left);
      m, ld, pc := DecodeOne(ld, stack, env, nodes, pc);
      left := left - 1;
      if !m.On? {
        StepsStay(ops, m, env, left);
        return;
      }
    }
    StepsNone(ops, Machine.On(pc, stack.View()), env);
    StartOn();
    m := Start();
  }

  lemma StepsOne(ops: seq<Op>, m: Machine, env: Env, n: nat)
    requires n > 0
    ensures Steps(ops, m, env, n) == Steps(ops, Step(ops, m, env), env, n - 1)
  {
  }

  lemma StartOn()
    ensures Start().On?
  {
  }

  lemma StepsNone(ops: seq<Op>, m: Machine, env: Env)
    ensures Steps(ops, m, env, 0) == m
  {
  }

  /** The result slot. */
  method ResultOf(stack: Stack) returns (m: Machine)
    ensures m == Result(stack.View()) && !m.On?
  {
    var top := U32(stack.sp);
    if top >= stack.cells.Length { return Fault; }
    m := Done(stack.cells[top]);
  }

  method JumpBy(ld: LocDesc, skip: int, stack: Stack, ghost nodes: seq<LocDesc>, ghost pc: nat) returns (m: Machine, to: LocDesc?, ghost next: nat)
    requires Linked(nodes) && pc < |nodes| && ld == nodes[pc]
    ensures next <= |nodes|
    ensures var j := JumpTo(pc, skip, |nodes|, stack.View());
      if j.On? then m.On? && j == Machine.On(next, stack.View()) && to == NodeAt(nodes, next) else m == j
  {
    next := 0;
    var bad;
    if skip < 0 { bad, to := Backward(ld, skip, nodes, pc); } else { bad, to := Forward(ld, skip, nodes, pc); }
    if bad { return Fault, null, 0; }
    ghost var target := if skip < 0 then pc + skip + 1 else pc + skip;
    if to == null {
      // Behind the last node the run ends with the next round, before the first at once.
      if skip < 0 { m := ResultOf(stack); return m, null, 0; }
      return Start(), null, |nodes|;
    }
    m, next := Start(), target;
  }

  /** One round of the loop. */
  method DecodeOne(ld: LocDesc?, stack: Stack, env: Env, ghost nodes: seq<LocDesc>, ghost pc: nat) returns (m: Machine, to: LocDesc?, ghost next: nat)
    requires Linked(nodes) && pc <= |nodes| && ld == NodeAt(nodes, pc)
    modifies stack, stack.cells
    ensures next <= |nodes|
    ensures var j := Step(OpsOf(nodes), Machine.On(pc, old(stack.View())), env);
      if j.On? then m.On? && j == Machine.On(next, stack.View()) && to == NodeAt(nodes, next) else m == j
  {
    hide Exec, JumpTo, Result, OpOf, Text, Dwarf.Append, OpsOf;
    to, next := null, 0;
    if ld == null { m := ResultOf(stack); return; }
    var op := OpOf(ld.op, ld.opd1, ld.opd2);
    OpsAt(nodes, pc);
    assert op == OpsOf(nodes)[pc];
    if op.StackValue? { m := ResultOf(stack); return; }
    if op.Jump? { m, to, next := JumpBy(ld, op.skip, stack, nodes, pc); return; }
    if op.Bra? {
      m, to, next := DecodeBra(ld, op, stack, env, nodes, pc);
      return;
    }
    m, to, next := DecodePlain(ld, op, stack, env, nodes, pc);
  }

  lemma NextAt(nodes: seq<LocDesc>, pc: nat)
    requires Linked(nodes) && pc < |nodes|
    ensures nodes[pc].next == NodeAt(nodes, pc + 1)
  {
  }

  /** `bra`: only a branch that is not taken writes its text. */
  method DecodeBra(ld: LocDesc, op: Op, stack: Stack, env: Env, ghost nodes: seq<LocDesc>, ghost pc: nat) returns (m: Machine, to: LocDesc?, ghost next: nat)
    requires Linked(nodes) && pc < |nodes| && ld == nodes[pc] && op.Bra?
    modifies stack`text
    ensures next <= |nodes|
    ensures var s := old(stack.View());
      var j := if !s.Has(0) then Fault else if s.Get(0) != 0 then JumpTo(pc, op.skip, |nodes|, s) else Dwarf.Append(pc + 1, s, Text(op, env));
      if j.On? then m.On? && j == Machine.On(next, stack.View()) && to == NodeAt(nodes, next) else m == j
  {
    hide JumpTo, Text, Dwarf.Append;
    NextAt(nodes, pc);
    hide Linked, NodeAt;
    var top := U32(stack.sp);
    if top >= stack.cells.Length { return Fault, null, 0; }
    if stack.cells[top] != 0 { m, to, next := JumpBy(ld, op.skip, stack, nodes, pc); return; }
    m, to, next := AppendText(ld.next, op, stack, env, pc);
  }

  /** The end of a round: the text is appended and the next node follows. */
  method AppendText(following: LocDesc?, op: Op, stack: Stack, env: Env, ghost pc: nat) returns (m: Machine, to: LocDesc?, ghost next: nat)
    modifies stack`text
    ensures var j := Dwarf.Append(pc + 1, old(stack.View()), Text(op, env));
      if j.On? then m.On? && j == Machine.On(pc + 1, stack.View()) && to == following && next == pc + 1 else m == j && next == 0
  {
    hide Text;
    var full := stack.Append(Text(op, env), pc + 1);
    if full { return Fault, null, 0; }
    m, to, next := Start(), following, pc + 1;
  }

  /** Any operation that does not jump. */
  method DecodePlain(ld: LocDesc, op: Op, stack: Stack, env: Env, ghost nodes: seq<LocDesc>, ghost pc: nat) returns (m: Machine, to: LocDesc?, ghost next: nat)
    requires Linked(nodes) && pc < |nodes| && ld == nodes[pc]
    modifies stack, stack.cells
    ensures next <= |nodes|
    ensures var j := match Exec(op, old(stack.View()), env) case Bad => Fault case Good(s) => Dwarf.Append(pc + 1, s, Text(op, env));
      if j.On? then m.On? && j == Machine.On(next, stack.View()) && to == NodeAt(nodes, next) else m == j
  {
    hide Exec, Text, Dwarf.Append, Stack.View;
    NextAt(nodes, pc);
    hide Linked, NodeAt;
    var following := ld.next;
    var bad := stack.ExecOp(op, env);
    if bad { return Fault, null, 0; }
    m, to, next := AppendText(following, op, stack, env, pc);
  }
}
