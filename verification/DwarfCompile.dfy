/** Compiling expression trees to location expressions: what decoding the code computes. */
module DwarfCompile {
  import opened Arithmetic
  import opened Longs
  import opened Dwarf

  /** Conditionals take the first branch if the condition is not 0. */
  datatype Tree =
    | Leaf(op: Op)
    | Un(u: UnaryOp, t: Tree)
    | Add(t: Tree, n: nat)
    | Bin(b: BinaryOp, l: Tree, r: Tree)
    | Fetch(t: Tree)
    | Cond(c: Tree, yes: Tree, no: Tree)

  /** `deref` leaves the address in place and `bra` the condition: the code gets rid of them. */
  function Code(t: Tree): seq<Op> {
    match t
    case Leaf(op) => [op]
    case Un(u, t1) => Code(t1) + [Unary(u)]
    case Add(t1, n) => Code(t1) + [PlusUconst(n)]
    case Bin(b, l, r) => Code(l) + Code(r) + [Binary(b)]
    case Fetch(t1) => Code(t1) + [Deref, Swap, Drop]
    case Cond(c, yes, no) =>
      Code(c) + [Bra(|Code(no)| + 3), Drop] + Code(no) + [Jump(|Code(yes)| + 2), Drop] + Code(yes)
  }

  const SHORT_MAX: int := 0x7fff

  /** Leaves push, and jumps fit in 16 bits. */
  predicate Encodable(t: Tree) {
    match t
    case Leaf(op) => IsPush(op)
    case Un(_, t1) => Encodable(t1)
    case Add(t1, _) => Encodable(t1)
    case Bin(_, l, r) => Encodable(l) && Encodable(r)
    case Fetch(t1) => Encodable(t1)
    case Cond(c, yes, no) => Encodable(c) && Encodable(yes) && Encodable(no) && |Code(no)| + 3 <= SHORT_MAX && |Code(yes)| + 2 <= SHORT_MAX
  }

  /** The tree's value; None if C leaves it undefined. */
  function Value(t: Tree, env: Env): Option<int>
    requires Encodable(t)
  {
    match t
    case Leaf(op) => Some(PushValue(op, env))
    case Un(u, t1) => (match Value(t1, env) case None => None case Some(v) => Some(ApplyUnary(u, v)))
    case Add(t1, n) => (match Value(t1, env) case None => None case Some(v) => Some(Wrap(v + Wrap(n))))
    case Bin(b, l, r) =>
      (match (Value(l, env), Value(r, env))
       case (Some(x), Some(y)) => ApplyBinary(b, x, y)
       case _ => None)
    case Fetch(t1) => (match Value(t1, env) case None => None case Some(v) => Some(Load(v, env)))
    case Cond(c, yes, no) =>
      (match Value(c, env) case None => None case Some(v) => if v != 0 then Value(yes, env) else Value(no, env))
  }

  function Max(a: nat, b: nat): nat { if a > b then a else b }

  /** The slots an evaluation takes. */
  function Need(t: Tree, env: Env): nat
    requires Encodable(t)
  {
    match t
    case Leaf(_) => 1
    case Un(_, t1) => Need(t1, env)
    case Add(t1, _) => Need(t1, env)
    case Bin(_, l, r) => Max(Need(l, env), 1 + Need(r, env))
    case Fetch(t1) => Max(Need(t1, env), 2)
    case Cond(c, yes, no) =>
      (match Value(c, env)
       case None => Need(c, env)
       case Some(v) => Max(Need(c, env), if v != 0 then Need(yes, env) else Need(no, env)))
  }

  /** The operations an evaluation runs through. */
  function Cost(t: Tree, env: Env): nat
    requires Encodable(t)
  {
    match t
    case Leaf(_) => 1
    case Un(_, t1) => Cost(t1, env) + 1
    case Add(t1, _) => Cost(t1, env) + 1
    case Bin(_, l, r) => Cost(l, env) + (Cost(r, env) + 1)
    case Fetch(t1) => Cost(t1, env) + 3
    case Cond(c, yes, no) =>
      (match Value(c, env)
       case None => Cost(c, env)
       case Some(v) => Cost(c, env) + (2 + if v != 0 then Cost(yes, env) else Cost(no, env) + 1))
  }

  /** The characters an evaluation writes. A taken `bra` and a `skip` write none. */
  function Written(t: Tree, env: Env): nat
    requires Encodable(t)
  {
    match t
    case Leaf(op) => Text(op, env)
    case Un(u, t1) => Written(t1, env) + Text(Unary(u), env)
    case Add(t1, n) => Written(t1, env) + Text(PlusUconst(n), env)
    case Bin(b, l, r) => Written(l, env) + (Written(r, env) + Text(Binary(b), env))
    case Fetch(t1) => Written(t1, env) + FetchText(env)
    case Cond(c, yes, no) =>
      (match Value(c, env)
       case None => Written(c, env)
       case Some(v) => Written(c, env) + (BranchText(v, |Code(no)| + 3, env) + if v != 0 then Written(yes, env) else Written(no, env)))
  }

  function FetchText(env: Env): nat {
    Text(Deref, env) + Text(Swap, env) + Text(Drop, env)
  }

  /** `bra` and the `drop` behind it. */
  function BranchText(v: int, skip: nat, env: Env): nat {
    if v != 0 then Text(Drop, env) else Text(Bra(skip), env) + Text(Drop, env)
  }

  // ----- the stack as the sequence of its live slots

  /** Slots 0 to `sp` hold `base`, and `text` characters are written. */
  ghost predicate Holds(s: Slots, base: seq<int>, text: nat) {
    s.Valid() && s.sp + 1 == |base| <= SLOTS && s.cells[..|base|] == base && s.text == text
  }

  lemma PushHolds(s: Slots, base: seq<int>, text: nat, v: int)
    requires Holds(s, base, text)
    ensures if |base| < SLOTS then Push(s, v).Good? && Holds(Push(s, v).s, base + [v], text) else Push(s, v) == Bad
  {
  }

  lemma TopHolds(s: Slots, base: seq<int>, text: nat, v: int)
    requires Holds(s, base + [v], text)
    ensures s.Has(0) && s.Get(0) == v && s.text == text
  {
    assert s.cells[..|base| + 1][|base|] == v;
  }

  lemma UnderHolds(s: Slots, base: seq<int>, text: nat, u: int, v: int)
    requires Holds(s, base + [u] + [v], text)
    ensures s.Has(1) && s.Get(1) == u && s.Has(0) && s.Get(0) == v
  {
    assert s.cells[..|base| + 2][|base|] == u;
    assert s.cells[..|base| + 2][|base| + 1] == v;
  }

  lemma SetHolds(s: Slots, base: seq<int>, text: nat, v: int, w: int)
    requires Holds(s, base + [v], text)
    ensures s.Has(0) && Holds(s.Set(0, w), base + [w], text)
  {
    assert s.Set(0, w).cells[..|base|] == s.cells[..|base| + 1][..|base|] == base;
  }

  lemma DropHolds(s: Slots, base: seq<int>, text: nat, v: int)
    requires base != [] && Holds(s, base + [v], text)
    ensures Holds(s.Move(-1), base, text)
  {
    assert s.cells[..|base|] == s.cells[..|base| + 1][..|base|] == base;
  }

  lemma BinaryHolds(s: Slots, base: seq<int>, text: nat, b: BinaryOp, x: int, y: int)
    requires Holds(s, base + [x] + [y], text)
    ensures match ApplyBinary(b, x, y)
      case None => ExecBinary(s, b) == Bad
      case Some(v) => ExecBinary(s, b).Good? && Holds(ExecBinary(s, b).s, base + [v], text)
  {
    hide ApplyBinary;
    UnderHolds(s, base, text, x, y);
    match ApplyBinary(b, x, y)
    case None =>
    case Some(v) =>
      var s1 := s.Set(1, v).Move(-1);
      assert s1.cells[..|base|] == s.cells[..|base| + 2][..|base|] == base;
  }

  lemma SwapHolds(s: Slots, base: seq<int>, text: nat, x: int, y: int)
    requires Holds(s, base + [x] + [y], text)
    ensures ExecSwap(s).Good? && Holds(ExecSwap(s).s, base + [y] + [x], text)
  {
    UnderHolds(s, base, text, x, y);
    var s1 := ExecSwap(s).s;
    assert s1.cells[..|base|] == s.cells[..|base| + 2][..|base|] == base;
  }

  /** The buffer takes an operation's text, or the run faults. */
  lemma AppendHolds(pc: nat, s: Slots, base: seq<int>, text: nat, n: nat)
    requires Holds(s, base, text)
    ensures if text + n < BUFFER then Append(pc, s, n).On? && Append(pc, s, n).pc == pc && Holds(Append(pc, s, n).s, base, text + n)
      else Append(pc, s, n) == Fault
  {
  }

  // ----- code in its place

  predicate InPlace(ops: seq<Op>, p: nat, code: seq<Op>) {
    p + |code| <= |ops| && ops[p..p + |code|] == code
  }

  lemma InPlaceSplit(ops: seq<Op>, p: nat, a: seq<Op>, b: seq<Op>)
    requires InPlace(ops, p, a + b)
    ensures InPlace(ops, p, a) && InPlace(ops, p + |a|, b)
  {
    var c := ops[p..p + |a + b|];
    assert c[..|a|] == a && c[|a|..] == b;
    assert ops[p..p + |a|] == c[..|a|] && ops[p + |a|..p + |a| + |b|] == c[|a|..];
  }

  lemma InPlaceAt(ops: seq<Op>, p: nat, op: Op)
    requires InPlace(ops, p, [op])
    ensures p < |ops| && ops[p] == op
  {
    assert ops[p] == ops[p..p + 1][0];
  }

  /** From `On(p, s)`, `n` steps either put `v` on top of `base`, lower slots unchanged, stand behind
      the code and have `text` characters written, or fault. */
  ghost predicate Computes(ops: seq<Op>, p: nat, s: Slots, env: Env, n: nat, next: nat, base: seq<int>, text: nat, v: Option<int>) {
    var m := Steps(ops, Machine.On(p, s), env, n);
    match v
    case None => m == Fault
    case Some(x) => m.On? && m.pc == next && Holds(m.s, base + [x], text)
  }

  /** Undefined values and text without room. */
  function Room(v: Option<int>, text: nat): Option<int> {
    if text < BUFFER then v else None
  }

  /** Undefined values, and values or text without room. */
  function Fitting(v: Option<int>, base: seq<int>, need: nat, text: nat): Option<int> {
    if |base| + need <= SLOTS then Room(v, text) else None
  }

  /** Another operation behind code that computes. */
  lemma ThenStep(ops: seq<Op>, p: nat, s: Slots, env: Env, n: nat)
    ensures var m := Steps(ops, Machine.On(p, s), env, n);
      Steps(ops, Machine.On(p, s), env, n + 1) == Step(ops, m, env)
  {
    hide Step;
    var m := Steps(ops, Machine.On(p, s), env, n);
    StepsAdd(ops, Machine.On(p, s), env, n, 1);
    assert Steps(ops, m, env, 1) == Steps(ops, Step(ops, m, env), env, 0) == Step(ops, m, env);
  }

  /** What a step at an operation that does not jump comes to. */
  lemma StepExecutes(ops: seq<Op>, p: nat, s: Slots, env: Env)
    requires p < |ops| && !ops[p].StackValue? && !ops[p].Jump? && !ops[p].Bra?
    ensures Step(ops, Machine.On(p, s), env) ==
      match Exec(ops[p], s, env) case Bad => Fault case Good(s1) => Append(p + 1, s1, Text(ops[p], env))
  {
    hide Exec, Append, Text;
  }

  lemma LeafRuns(ops: seq<Op>, p: nat, op: Op, s: Slots, base: seq<int>, text: nat, env: Env)
    requires IsPush(op) && InPlace(ops, p, [op]) && Holds(s, base, text)
    ensures var after := text + Text(op, env);
      Computes(ops, p, s, env, 1, p + 1, base, after, Fitting(Some(PushValue(op, env)), base, 1, after))
  {
    InPlaceAt(ops, p, op);
    ThenStep(ops, p, s, env, 0);
    StepExecutes(ops, p, s, env);
    var v := PushValue(op, env);
    assert Exec(op, s, env) == Push(s, v);
    hide PushValue, Push, Exec, Text, Append, Step, Holds;
    PushHolds(s, base, text, v);
    if |base| < SLOTS { AppendHolds(p + 1, Push(s, v).s, base + [v], text, Text(op, env)); }
  }

  lemma UnaryRuns(ops: seq<Op>, p: nat, s: Slots, env: Env, n: nat, q: nat, base: seq<int>, text: nat, x: int, u: UnaryOp)
    requires Computes(ops, p, s, env, n, q, base, text, Some(x)) && InPlace(ops, q, [Unary(u)])
    ensures var after := text + Text(Unary(u), env);
      Computes(ops, p, s, env, n + 1, q + 1, base, after, Room(Some(ApplyUnary(u, x)), after))
  {
    hide ApplyUnary, Steps, Step, Append, Text, Holds;
    InPlaceAt(ops, q, Unary(u));
    ThenStep(ops, p, s, env, n);
    var s1 := Steps(ops, Machine.On(p, s), env, n).s;
    StepExecutes(ops, q, s1, env);
    TopHolds(s1, base, text, x);
    SetHolds(s1, base, text, x, ApplyUnary(u, x));
    AppendHolds(q + 1, s1.Set(0, ApplyUnary(u, x)), base + [ApplyUnary(u, x)], text, Text(Unary(u), env));
  }

  lemma AddRuns(ops: seq<Op>, p: nat, s: Slots, env: Env, n: nat, q: nat, base: seq<int>, text: nat, x: int, k: nat)
    requires Computes(ops, p, s, env, n, q, base, text, Some(x)) && InPlace(ops, q, [PlusUconst(k)])
    ensures var after := text + Text(PlusUconst(k), env);
      Computes(ops, p, s, env, n + 1, q + 1, base, after, Room(Some(Wrap(x + Wrap(k))), after))
  {
    hide Steps, Step, Append, Text, Holds, Wrap;
    InPlaceAt(ops, q, PlusUconst(k));
    ThenStep(ops, p, s, env, n);
    var s1 := Steps(ops, Machine.On(p, s), env, n).s;
    StepExecutes(ops, q, s1, env);
    TopHolds(s1, base, text, x);
    var v := Wrap(x + Wrap(k));
    SetHolds(s1, base, text, x, v);
    AppendHolds(q + 1, s1.Set(0, v), base + [v], text, Text(PlusUconst(k), env));
  }

  /** Code behind code. */
  lemma Chain(ops: seq<Op>, p: nat, s: Slots, env: Env, n: nat, q: nat, base: seq<int>, text: nat, x: int, k: nat, next: nat, base2: seq<int>, text2: nat, v: Option<int>)
    requires Computes(ops, p, s, env, n, q, base, text, Some(x))
    requires Computes(ops, q, Steps(ops, Machine.On(p, s), env, n).s, env, k, next, base2, text2, v)
    ensures Computes(ops, p, s, env, n + k, next, base2, text2, v)
  {
    hide Steps, Holds;
    StepsAdd(ops, Machine.On(p, s), env, n, k);
  }

  lemma FaultStays(ops: seq<Op>, p: nat, s: Slots, env: Env, n: nat, q: nat, base: seq<int>, text: nat, k: nat, next: nat, base2: seq<int>, text2: nat)
    requires Computes(ops, p, s, env, n, q, base, text, None)
    ensures Computes(ops, p, s, env, n + k, next, base2, text2, None)
  {
    hide Steps, Holds;
    StepsAdd(ops, Machine.On(p, s), env, n, k);
    StepsStay(ops, Fault, env, k);
  }

  /** The state behind both operands runs the operator. */
  lemma BinaryRuns(ops: seq<Op>, p: nat, s: Slots, env: Env, n: nat, q: nat, base: seq<int>, text: nat, x: int, y: int, b: BinaryOp)
    requires Computes(ops, p, s, env, n, q, base + [x], text, Some(y)) && InPlace(ops, q, [Binary(b)])
    ensures var after := text + Text(Binary(b), env);
      Computes(ops, p, s, env, n + 1, q + 1, base, after, Room(ApplyBinary(b, x, y), after))
  {
    hide ApplyBinary, Steps, Step, ExecBinary, Append, Text, Holds;
    InPlaceAt(ops, q, Binary(b));
    ThenStep(ops, p, s, env, n);
    var s1 := Steps(ops, Machine.On(p, s), env, n).s;
    StepExecutes(ops, q, s1, env);
    BinaryHolds(s1, base, text, b, x, y);
    match ApplyBinary(b, x, y)
    case None =>
    case Some(v) => AppendHolds(q + 1, ExecBinary(s1, b).s, base + [v], text, Text(Binary(b), env));
  }

  /** `deref; swap; drop` replaces an address by what it points to. */
  lemma FetchRuns(ops: seq<Op>, p: nat, s: Slots, env: Env, n: nat, q: nat, base: seq<int>, text: nat, x: int)
    requires base != [] && Computes(ops, p, s, env, n, q, base, text, Some(x)) && InPlace(ops, q, [Deref, Swap, Drop])
    ensures var after := text + FetchText(env);
      Computes(ops, p, s, env, n + 3, q + 3, base, after, Fitting(Some(Load(x, env)), base, 2, after))
  {
    hide Steps, Load, Text, Computes;
    assert [Deref, Swap, Drop] == [Deref] + [Swap] + [Drop];
    InPlaceSplit(ops, q, [Deref] + [Swap], [Drop]);
    InPlaceSplit(ops, q, [Deref], [Swap]);
    hide InPlace;
    var v := Load(x, env);
    DerefRuns(ops, p, s, env, n, q, base, text, x);
    var first := text + Text(Deref, env);
    if |base| + 2 <= SLOTS && first < BUFFER {
      SwapRuns(ops, p, s, env, n + 1, q + 1, base, first, x, v);
      var second := first + Text(Swap, env);
      if second < BUFFER {
        DropRuns(ops, p, s, env, n + 2, q + 2, base, second, v, x);
      } else {
        FaultStays(ops, p, s, env, n + 2, q + 2, base + [v], second, 1, q + 3, base, text + FetchText(env));
      }
    } else {
      FaultStays(ops, p, s, env, n + 1, q + 1, base + [x], first, 2, q + 3, base, text + FetchText(env));
    }
  }

  lemma DerefRuns(ops: seq<Op>, p: nat, s: Slots, env: Env, n: nat, q: nat, base: seq<int>, text: nat, x: int)
    requires Computes(ops, p, s, env, n, q, base, text, Some(x)) && InPlace(ops, q, [Deref])
    ensures var after := text + Text(Deref, env);
      Computes(ops, p, s, env, n + 1, q + 1, base + [x], after, Fitting(Some(Load(x, env)), base, 2, after))
  {
    hide Steps, Step, Load, Push, Append, Text, Holds;
    InPlaceAt(ops, q, Deref);
    ThenStep(ops, p, s, env, n);
    var s1 := Steps(ops, Machine.On(p, s), env, n).s;
    StepExecutes(ops, q, s1, env);
    TopHolds(s1, base, text, x);
    PushHolds(s1, base + [x], text, Load(x, env));
    if |base| + 2 <= SLOTS { AppendHolds(q + 1, Push(s1, Load(x, env)).s, base + [x] + [Load(x, env)], text, Text(Deref, env)); }
  }

  lemma SwapRuns(ops: seq<Op>, p: nat, s: Slots, env: Env, n: nat, q: nat, base: seq<int>, text: nat, x: int, y: int)
    requires Computes(ops, p, s, env, n, q, base + [x], text, Some(y)) && InPlace(ops, q, [Swap])
    ensures var after := text + Text(Swap, env);
      Computes(ops, p, s, env, n + 1, q + 1, base + [y], after, Room(Some(x), after))
  {
    hide Steps, Step, ExecSwap, Append, Text, Holds;
    InPlaceAt(ops, q, Swap);
    ThenStep(ops, p, s, env, n);
    var s1 := Steps(ops, Machine.On(p, s), env, n).s;
    StepExecutes(ops, q, s1, env);
    SwapHolds(s1, base, text, x, y);
    AppendHolds(q + 1, ExecSwap(s1).s, base + [y] + [x], text, Text(Swap, env));
  }

  lemma DropRuns(ops: seq<Op>, p: nat, s: Slots, env: Env, n: nat, q: nat, base: seq<int>, text: nat, x: int, y: int)
    requires base != [] && Computes(ops, p, s, env, n, q, base + [x], text, Some(y)) && InPlace(ops, q, [Drop])
    ensures var after := text + Text(Drop, env);
      Computes(ops, p, s, env, n + 1, q + 1, base, after, Room(Some(x), after))
  {
    hide Steps, Step, Append, Text, Holds;
    InPlaceAt(ops, q, Drop);
    ThenStep(ops, p, s, env, n);
    var s1 := Steps(ops, Machine.On(p, s), env, n).s;
    StepExecutes(ops, q, s1, env);
    DropHolds(s1, base + [x], text, y);
    AppendHolds(q + 1, s1.Move(-1), base + [x], text, Text(Drop, env));
  }

  // ----- the code of trees

  /** The value, if it is defined and what its evaluation needs is there. */
  function FitOf(t: Tree, base: seq<int>, text: nat, env: Env): Option<int>
    requires Encodable(t)
  {
    Fitting(Value(t, env), base, Need(t, env), text + Written(t, env))
  }

  /** Decoding the code of a tree puts its value on top, leaves all lower slots unchanged and writes
      its text, exactly if the value is defined and the evaluation fits the 512 slots and the buffer;
      else it faults. */
  lemma {:induction false} CodeRuns(ops: seq<Op>, p: nat, t: Tree, s: Slots, base: seq<int>, text: nat, env: Env)
    requires Encodable(t) && InPlace(ops, p, Code(t)) && Holds(s, base, text) && base != []
    ensures Computes(ops, p, s, env, Cost(t, env), p + |Code(t)|, base, text + Written(t, env), FitOf(t, base, text, env))
    decreases t, 2
  {
    hide Computes, PushValue, Holds, Text;
    match t
    case Leaf(op) => LeafRuns(ops, p, op, s, base, text, env);
    case Bin(_, _, _) => BinRuns(ops, p, t, s, base, text, env);
    case Cond(_, _, _) => CondRuns(ops, p, t, s, base, text, env);
    case _ => OneRuns(ops, p, t, s, base, text, env);
  }

  lemma OneFits(t: Tree, base: seq<int>, text: nat, env: Env)
    requires (t.Un? || t.Add? || t.Fetch?) && Encodable(t)
    ensures FitOf(t, base, text, env) == match FitOf(t.t, base, text, env)
      case None => None
      case Some(x) =>
        var after := text + Written(t, env);
        if t.Un? then Room(Some(ApplyUnary(t.u, x)), after)
        else if t.Add? then Room(Some(Wrap(x + Wrap(t.n))), after)
        else Fitting(Some(Load(x, env)), base, 2, after)
  {
    hide ApplyUnary, Wrap, Load, Text;
  }

  /** The operations behind a single operand. */
  function Behind(t: Tree): (ops: seq<Op>)
    requires t.Un? || t.Add? || t.Fetch?
  {
    if t.Un? then [Unary(t.u)] else if t.Add? then [PlusUconst(t.n)] else [Deref, Swap, Drop]
  }

  lemma BehindIs(t: Tree)
    requires t.Un? || t.Add? || t.Fetch?
    ensures t.Un? ==> Behind(t) == [Unary(t.u)]
    ensures t.Add? ==> Behind(t) == [PlusUconst(t.n)]
    ensures t.Fetch? ==> Behind(t) == [Deref, Swap, Drop]
  {
  }

  lemma OneSizes(t: Tree, env: Env)
    requires (t.Un? || t.Add? || t.Fetch?) && Encodable(t)
    ensures Encodable(t.t) && Code(t) == Code(t.t) + Behind(t) && Cost(t, env) == Cost(t.t, env) + |Behind(t)|
    ensures Written(t, env) == Written(t.t, env) +
      if t.Un? then Text(Unary(t.u), env) else if t.Add? then Text(PlusUconst(t.n), env) else FetchText(env)
  {
    hide Text;
  }

  /** Trees with one operand. */
  lemma {:induction false} OneRuns(ops: seq<Op>, p: nat, t: Tree, s: Slots, base: seq<int>, text: nat, env: Env)
    requires t.Un? || t.Add? || t.Fetch?
    requires Encodable(t) && InPlace(ops, p, Code(t)) && Holds(s, base, text) && base != []
    ensures Computes(ops, p, s, env, Cost(t, env), p + |Code(t)|, base, text + Written(t, env), FitOf(t, base, text, env))
    decreases t, 1
  {
    hide *;
    OneSizes(t, env);
    var n, q, last := Cost(t.t, env), p + |Code(t.t)|, |Behind(t)|;
    InPlaceSplit(ops, p, Code(t.t), Behind(t));
    BehindIs(t);
    CodeRuns(ops, p, t.t, s, base, text, env);
    OneFits(t, base, text, env);
    var mid := text + Written(t.t, env);
    match FitOf(t.t, base, text, env)
    case None => FaultStays(ops, p, s, env, n, q, base, mid, last, p + |Code(t)|, base, text + Written(t, env));
    case Some(x) =>
      match t
      case Un(u, _) => UnaryRuns(ops, p, s, env, n, q, base, mid, x, u);
      case Add(_, k) => AddRuns(ops, p, s, env, n, q, base, mid, x, k);
      case Fetch(_) => FetchRuns(ops, p, s, env, n, q, base, mid, x);
  }

  lemma BinFits(t: Tree, base: seq<int>, text: nat, env: Env)
    requires t.Bin? && Encodable(t)
    ensures FitOf(t, base, text, env) == match FitOf(t.l, base, text, env)
      case None => None
      case Some(x) => match FitOf(t.r, base + [x], text + Written(t.l, env), env)
        case None => None
        case Some(y) => Room(ApplyBinary(t.b, x, y), text + Written(t, env))
  {
    hide ApplyBinary, Text;
  }

  lemma BinSizes(t: Tree, env: Env)
    requires t.Bin? && Encodable(t)
    ensures Encodable(t.l) && Encodable(t.r)
    ensures Cost(t, env) == Cost(t.l, env) + (Cost(t.r, env) + 1)
    ensures Written(t, env) == Written(t.l, env) + (Written(t.r, env) + Text(Binary(t.b), env))
  {
    hide Text;
  }

  lemma BinParts(ops: seq<Op>, p: nat, t: Tree)
    requires t.Bin? && InPlace(ops, p, Code(t))
    ensures var q := p + |Code(t.l)|;
      && InPlace(ops, p, Code(t.l)) && InPlace(ops, q, Code(t.r)) && InPlace(ops, q + |Code(t.r)|, [Binary(t.b)])
      && q + |Code(t.r)| + 1 == p + |Code(t)|
  {
    InPlaceSplit(ops, p, Code(t.l) + Code(t.r), [Binary(t.b)]);
    InPlaceSplit(ops, p, Code(t.l), Code(t.r));
  }

  lemma {:induction false} BinRuns(ops: seq<Op>, p: nat, t: Tree, s: Slots, base: seq<int>, text: nat, env: Env)
    requires t.Bin? && Encodable(t) && InPlace(ops, p, Code(t)) && Holds(s, base, text) && base != []
    ensures Computes(ops, p, s, env, Cost(t, env), p + |Code(t)|, base, text + Written(t, env), FitOf(t, base, text, env))
    decreases t, 1
  {
    hide *;
    BinSizes(t, env);
    BinParts(ops, p, t);
    BinFits(t, base, text, env);
    var nl, nr, q, next := Cost(t.l, env), Cost(t.r, env), p + |Code(t.l)|, p + |Code(t)|;
    var mid, last := text + Written(t.l, env), text + Written(t, env);
    var before := mid + Written(t.r, env);
    CodeRuns(ops, p, t.l, s, base, text, env);
    match FitOf(t.l, base, text, env)
    case None => FaultStays(ops, p, s, env, nl, q, base, mid, nr + 1, next, base, last);
    case Some(x) =>
      ComputesHolds(ops, p, s, env, nl, q, base, mid, x);
      CodeRuns(ops, q, t.r, Steps(ops, Machine.On(p, s), env, nl).s, base + [x], mid, env);
      var v := FitOf(t.r, base + [x], mid, env);
      Chain(ops, p, s, env, nl, q, base, mid, x, nr, next - 1, base + [x], before, v);
      match v
      case None => FaultStays(ops, p, s, env, nl + nr, next - 1, base + [x], before, 1, next, base, last);
      case Some(y) => BinaryRuns(ops, p, s, env, nl + nr, next - 1, base, before, x, y, t.b);
  }

  lemma ComputesHolds(ops: seq<Op>, p: nat, s: Slots, env: Env, n: nat, q: nat, base: seq<int>, text: nat, x: int)
    requires Computes(ops, p, s, env, n, q, base, text, Some(x))
    ensures Steps(ops, Machine.On(p, s), env, n) == Machine.On(q, Steps(ops, Machine.On(p, s), env, n).s)
    ensures Holds(Steps(ops, Machine.On(p, s), env, n).s, base + [x], text)
  {
    hide Steps, Holds;
  }

  function Pair(a: Op, b: Op): (s: seq<Op>)
    ensures |s| == 2
  {
    [a, b]
  }

  lemma CondCode(t: Tree)
    requires t.Cond?
    ensures Code(t) == Code(t.c) + Pair(Bra(|Code(t.no)| + 3), Drop) + Code(t.no) + Pair(Jump(|Code(t.yes)| + 2), Drop) + Code(t.yes)
  {
  }

  lemma FiveInPlace(ops: seq<Op>, p: nat, a: seq<Op>, b: seq<Op>, c: seq<Op>, d: seq<Op>, e: seq<Op>)
    requires InPlace(ops, p, a + b + c + d + e)
    ensures InPlace(ops, p, a) && InPlace(ops, p + |a|, b) && InPlace(ops, p + |a| + |b|, c)
    ensures InPlace(ops, p + |a| + |b| + |c|, d) && InPlace(ops, p + |a| + |b| + |c| + |d|, e)
    ensures p + |a| + |b| + |c| + |d| + |e| <= |ops|
  {
    assert p + |a + b + c + d + e| <= |ops|;
    hide InPlace;
    InPlaceSplit(ops, p, a + b + c + d, e);
    InPlaceSplit(ops, p, a + b + c, d);
    InPlaceSplit(ops, p, a + b, c);
    InPlaceSplit(ops, p, a, b);
  }

  /** Where the parts of a conditional's code stand. */
  lemma CondParts(ops: seq<Op>, p: nat, t: Tree)
    requires t.Cond? && InPlace(ops, p, Code(t))
    ensures var q := p + |Code(t.c)|;
      var r := q + 2 + |Code(t.no)|;
      && InPlace(ops, p, Code(t.c)) && InPlace(ops, q + 2, Code(t.no)) && InPlace(ops, r + 2, Code(t.yes))
      && r + 2 + |Code(t.yes)| == p + |Code(t)| <= |ops|
      && InPlace(ops, q, Pair(Bra(|Code(t.no)| + 3), Drop)) && InPlace(ops, r, Pair(Jump(|Code(t.yes)| + 2), Drop))
  {
    hide *;
    CondCode(t);
    FiveInPlace(ops, p, Code(t.c), Pair(Bra(|Code(t.no)| + 3), Drop), Code(t.no), Pair(Jump(|Code(t.yes)| + 2), Drop), Code(t.yes));
  }

  lemma InPlacePair(ops: seq<Op>, p: nat, a: Op, b: Op)
    requires InPlace(ops, p, Pair(a, b))
    ensures p + 1 < |ops| && ops[p] == a && ops[p + 1] == b
  {
    assert Pair(a, b) == [a] + [b];
    InPlaceSplit(ops, p, [a], [b]);
    InPlaceAt(ops, p, a);
    InPlaceAt(ops, p + 1, b);
  }

  /** A step at `drop`. */
  lemma DropSteps(ops: seq<Op>, p: nat, s: Slots, base: seq<int>, text: nat, v: int, env: Env)
    requires base != [] && p < |ops| && ops[p] == Drop && Holds(s, base + [v], text)
    ensures var m, after := Step(ops, Machine.On(p, s), env), text + Text(Drop, env);
      if after < BUFFER then m.On? && m.pc == p + 1 && Holds(m.s, base, after) else m == Fault
  {
    hide Step, Holds, Append, Text;
    StepExecutes(ops, p, s, env);
    DropHolds(s, base, text, v);
    AppendHolds(p + 1, s.Move(-1), base, text, Text(Drop, env));
  }

  /** A step at `bra`. */
  lemma BraSteps(ops: seq<Op>, p: nat, skip: nat, s: Slots, base: seq<int>, text: nat, v: int, env: Env)
    requires Holds(s, base + [v], text) && p + skip < |ops| && ops[p] == Bra(skip)
    ensures Step(ops, Machine.On(p, s), env) == if v != 0 then On(p + skip, s) else Append(p + 1, s, Text(Bra(skip), env))
  {
    TopHolds(s, base, text, v);
    hide Holds, Exec, Append, Text;
  }

  /** `bra` leaves its operand; a `drop` stands wherever it goes. */
  lemma BranchRuns(ops: seq<Op>, p: nat, skip: nat, s: Slots, base: seq<int>, text: nat, v: int, env: Env)
    requires base != [] && Holds(s, base + [v], text) && p + skip < |ops| && p + 1 < |ops|
    requires ops[p] == Bra(skip) && ops[p + 1] == Drop && ops[p + skip] == Drop
    ensures var m, after := Steps(ops, Machine.On(p, s), env, 2), text + BranchText(v, skip, env);
      if after < BUFFER then m.On? && m.pc == (if v != 0 then p + skip + 1 else p + 2) && Holds(m.s, base, after) else m == Fault
  {
    hide Holds, Step, Append, Text;
    BraSteps(ops, p, skip, s, base, text, v, env);
    var m1 := Step(ops, Machine.On(p, s), env);
    assert Steps(ops, Machine.On(p, s), env, 2) == Steps(ops, m1, env, 1) == Steps(ops, Step(ops, m1, env), env, 0) == Step(ops, m1, env);
    if v != 0 {
      DropSteps(ops, p + skip, s, base, text, v, env);
    } else {
      var mid := text + Text(Bra(skip), env);
      AppendHolds(p + 1, s, base + [v], text, Text(Bra(skip), env));
      if mid < BUFFER {
        DropSteps(ops, p + 1, m1.s, base, mid, v, env);
      } else {
        StepsStay(ops, m1, env, 1);
      }
    }
  }

  /** The branch taken and the text up to it. */
  function Taken(t: Tree, v: int): Tree
    requires t.Cond?
  {
    if v != 0 then t.yes else t.no
  }

  function Before(t: Tree, v: int, text: nat, env: Env): nat
    requires t.Cond?
  {
    text + BranchText(v, |Code(t.no)| + 3, env)
  }

  /** The operations from the condition's value on. */
  function Rest(t: Tree, v: int, env: Env): nat
    requires t.Cond? && Encodable(t)
  {
    2 + if v != 0 then Cost(t.yes, env) else Cost(t.no, env) + 1
  }

  lemma CondEncodable(t: Tree)
    requires t.Cond? && Encodable(t)
    ensures Encodable(t.c) && Encodable(t.yes) && Encodable(t.no)
  {
  }

  lemma CondFits(t: Tree, base: seq<int>, text: nat, env: Env)
    requires t.Cond? && Encodable(t)
    ensures match FitOf(t.c, base, text, env)
      case None => FitOf(t, base, text, env) == None && Cost(t.c, env) <= Cost(t, env)
      case Some(v) =>
        var to := Before(t, v, text + Written(t.c, env), env);
        && FitOf(t, base, text, env) == FitOf(Taken(t, v), base, to, env)
        && Cost(t, env) == Cost(t.c, env) + Rest(t, v, env)
        && text + Written(t, env) == to + Written(Taken(t, v), env)
  {
    hide Code, Text, BranchText, PushValue, ApplyBinary, ApplyUnary, Load, Wrap;
  }

  lemma {:induction false} CondRuns(ops: seq<Op>, p: nat, t: Tree, s: Slots, base: seq<int>, text: nat, env: Env)
    requires t.Cond? && Encodable(t) && InPlace(ops, p, Code(t)) && Holds(s, base, text) && base != []
    ensures Computes(ops, p, s, env, Cost(t, env), p + |Code(t)|, base, text + Written(t, env), FitOf(t, base, text, env))
    decreases t, 1
  {
    hide *;
    CondEncodable(t);
    CondParts(ops, p, t);
    CondFits(t, base, text, env);
    var n, q, mid := Cost(t.c, env), p + |Code(t.c)|, text + Written(t.c, env);
    CodeRuns(ops, p, t.c, s, base, text, env);
    match FitOf(t.c, base, text, env)
    case None => FaultStays(ops, p, s, env, n, q, base, mid, Cost(t, env) - n, p + |Code(t)|, base, text + Written(t, env));
    case Some(v) =>
      ComputesHolds(ops, p, s, env, n, q, base, mid, v);
      var s1 := Steps(ops, Machine.On(p, s), env, n).s;
      BranchesRun(ops, p, t, s1, base, mid, v, env);
      Chain(ops, p, s, env, n, q, base, mid, v, Cost(t, env) - n, p + |Code(t)|, base, text + Written(t, env), FitOf(t, base, text, env));
  }

  /** From the condition's value on. */
  lemma {:induction false} BranchesRun(ops: seq<Op>, p: nat, t: Tree, s: Slots, base: seq<int>, text: nat, v: int, env: Env)
    requires t.Cond? && Encodable(t) && InPlace(ops, p, Code(t)) && Holds(s, base + [v], text) && base != []
    ensures var to := Before(t, v, text, env);
      Computes(ops, p + |Code(t.c)|, s, env, Rest(t, v, env), p + |Code(t)|, base, to + Written(Taken(t, v), env), FitOf(Taken(t, v), base, to, env))
    decreases t, 0
  {
    hide Steps, Holds, Computes, InPlace, FitOf, Text, BranchText, Code, Cost, Written, Encodable, Fitting, Need, Value, Room, Pair;
    CondEncodable(t);
    var q, next, to := p + |Code(t.c)|, p + |Code(t)|, Before(t, v, text, env);
    CondParts(ops, p, t);
    var r := q + 2 + |Code(t.no)|;
    InPlacePair(ops, q, Bra(|Code(t.no)| + 3), Drop);
    InPlacePair(ops, r, Jump(|Code(t.yes)| + 2), Drop);
    BranchRuns(ops, q, |Code(t.no)| + 3, s, base, text, v, env);
    var m, last := Steps(ops, Machine.On(q, s), env, 2), to + Written(Taken(t, v), env);
    if to >= BUFFER {
      NoRoom(Taken(t, v), base, to, env);
      Faulted(ops, q, s, env, 2, Rest(t, v, env) - 2, next, base, last);
    } else if v != 0 {
      CodeRuns(ops, m.pc, t.yes, m.s, base, to, env);
      Prefix(ops, q, s, env, 2, m.pc, m.s, Cost(t.yes, env), next, base, last, FitOf(t.yes, base, to, env));
    } else {
      CodeRuns(ops, m.pc, t.no, m.s, base, to, env);
      JumpRuns(ops, m.pc, m.s, env, Cost(t.no, env), r, base, last, FitOf(t.no, base, to, env), |Code(t.yes)| + 2);
      Prefix(ops, q, s, env, 2, m.pc, m.s, Cost(t.no, env) + 1, next, base, last, FitOf(t.no, base, to, env));
    }
  }

  lemma NoRoom(t: Tree, base: seq<int>, text: nat, env: Env)
    requires Encodable(t) && text >= BUFFER
    ensures FitOf(t, base, text, env) == None
  {
  }

  lemma Faulted(ops: seq<Op>, p: nat, s: Slots, env: Env, n: nat, k: nat, next: nat, base: seq<int>, text: nat)
    requires Steps(ops, Machine.On(p, s), env, n) == Fault
    ensures Computes(ops, p, s, env, n + k, next, base, text, None)
  {
    hide Steps;
    StepsAdd(ops, Machine.On(p, s), env, n, k);
    StepsStay(ops, Fault, env, k);
  }

  /** Steps before code that computes. */
  lemma Prefix(ops: seq<Op>, p: nat, s: Slots, env: Env, n: nat, q: nat, s1: Slots, k: nat, next: nat, base: seq<int>, text: nat, v: Option<int>)
    requires Steps(ops, Machine.On(p, s), env, n) == Machine.On(q, s1) && Computes(ops, q, s1, env, k, next, base, text, v)
    ensures Computes(ops, p, s, env, n + k, next, base, text, v)
  {
    hide Steps, Holds;
    StepsAdd(ops, Machine.On(p, s), env, n, k);
  }

  lemma JumpRuns(ops: seq<Op>, p: nat, s: Slots, env: Env, n: nat, q: nat, base: seq<int>, text: nat, v: Option<int>, skip: nat)
    requires Computes(ops, p, s, env, n, q, base, text, v) && q < |ops| && ops[q] == Jump(skip) && q + skip <= |ops|
    ensures Computes(ops, p, s, env, n + 1, q + skip, base, text, v)
  {
    hide Steps, Holds, Exec, Append;
    ThenStep(ops, p, s, env, n);
  }

  // ----- whole descriptions

  /** The text outgrows the slots: what needs too many slots has overflowed the buffer long before. */
  lemma {:induction false} TextOutgrows(t: Tree, env: Env)
    requires Encodable(t)
    ensures Written(t, env) >= 8 * (Need(t, env) - 1)
  {
    match t
    case Leaf(_) =>
    case Un(_, t1) => TextOutgrows(t1, env);
    case Add(t1, _) => TextOutgrows(t1, env);
    case Bin(b, l, r) => TextOutgrows(l, env); TextOutgrows(r, env); NamesWithin(b, Not);
    case Fetch(t1) => TextOutgrows(t1, env);
    case Cond(c, yes, no) => TextOutgrows(c, env); TextOutgrows(yes, env); TextOutgrows(no, env);
  }

  /** Compilation correctness: decoding the code of a tree from the start yields the tree's value
      exactly if that is defined and the text of the operations run fits the buffer: the 512 slots
      never decide. */
  lemma DecodeComputes(t: Tree, env: Env)
    requires Encodable(t)
    ensures Steps(Code(t), Start(), env, Cost(t, env) + 1) ==
      match Room(Value(t, env), Written(t, env)) case None => Fault case Some(v) => Done(v)
  {
    hide Steps, Value, Need, Cost, Code, Written;
    var s := Start().s;
    assert s.cells[..1] == [0];
    assert Code(t)[0..|Code(t)|] == Code(t);
    CodeRuns(Code(t), 0, t, s, [0], 0, env);
    TextOutgrows(t, env);
    var v := FitOf(t, [0], 0, env);
    assert v == Room(Value(t, env), Written(t, env));
    ThenStep(Code(t), 0, s, env, Cost(t, env));
    match v
    case None =>
    case Some(x) => TopHolds(Steps(Code(t), Start(), env, Cost(t, env)).s, [0], Written(t, env), x);
  }

  /** A bound on the text that does not depend on the values: of two branches the longer. */
  function TextBound(t: Tree, env: Env): nat
    requires Encodable(t)
  {
    match t
    case Leaf(op) => Text(op, env)
    case Un(u, t1) => TextBound(t1, env) + Text(Unary(u), env)
    case Add(t1, n) => TextBound(t1, env) + Text(PlusUconst(n), env)
    case Bin(b, l, r) => TextBound(l, env) + (TextBound(r, env) + Text(Binary(b), env))
    case Fetch(t1) => TextBound(t1, env) + FetchText(env)
    case Cond(c, yes, no) =>
      TextBound(c, env) + Max(BranchText(1, |Code(no)| + 3, env) + TextBound(yes, env), BranchText(0, |Code(no)| + 3, env) + TextBound(no, env))
  }

  lemma {:induction false} WrittenWithinBound(t: Tree, env: Env)
    requires Encodable(t)
    ensures Written(t, env) <= TextBound(t, env)
  {
    hide Text, Code;
    match t
    case Leaf(_) =>
    case Un(_, t1) => WrittenWithinBound(t1, env);
    case Add(t1, _) => WrittenWithinBound(t1, env);
    case Bin(_, l, r) => WrittenWithinBound(l, env); WrittenWithinBound(r, env);
    case Fetch(t1) => WrittenWithinBound(t1, env);
    case Cond(c, yes, no) => WrittenWithinBound(c, env); WrittenWithinBound(yes, env); WrittenWithinBound(no, env);
  }

  /** A static bound decides it without running: where the text of the longest way fits the buffer,
      the value is always found. */
  lemma BoundedDecodes(t: Tree, env: Env)
    requires Encodable(t) && TextBound(t, env) < BUFFER
    ensures Steps(Code(t), Start(), env, Cost(t, env) + 1) == match Value(t, env) case None => Fault case Some(v) => Done(v)
  {
    hide Steps, Value, Cost, Code, Written, TextBound;
    WrittenWithinBound(t, env);
    DecodeComputes(t, env);
  }

  // ----- how soon the buffer overflows

  lemma {:induction false} DigitsWithin(n: nat, d: nat, power: nat)
    requires d > 0 && n < power == TenTo(d)
    ensures Digits(n) <= d
  {
    if d == 1 {
      assert TenTo(1) == 10;
    } else {
      assert power == 10 * TenTo(d - 1);
      hide TenTo;
      DigitsWithin(n / 10, d - 1, TenTo(d - 1));
    }
  }

  function TenTo(d: nat): nat {
    if d == 0 then 1 else 10 * TenTo(d - 1)
  }

  lemma {:induction false} HexDigitsWithin(n: nat, d: nat)
    requires d > 0 && n < TwoTo(4 * d)
    ensures HexDigits(n) <= d
  {
    assert TwoTo(4 * d) == 2 * TwoTo(4 * d - 1) == 4 * TwoTo(4 * d - 2) == 8 * TwoTo(4 * d - 3) == 16 * TwoTo(4 * d - 4);
    if d > 1 { HexDigitsWithin(n / 16, d - 1); } else { assert TwoTo(0) == 1; }
  }

  lemma DecimalWithin(x: int)
    requires LONG_MIN <= x <= LONG_MAX
    ensures Decimal(x) <= 20 && WithSign(x) <= 20
  {
    assert TenTo(5) == 10_0000;
    assert TenTo(10) == 10_0000 * TenTo(5);
    assert TenTo(15) == 10_0000 * TenTo(10);
    assert TenTo(19) == 1_0000 * TenTo(15);
    DigitsWithin(if x < 0 then -x else x, 19, TenTo(19));
  }

  lemma TwiceTimes(a: int, b: int)
    ensures 2 * (a * b) == (2 * a) * b
  {
  }

  lemma {:induction false} TwoToAdds(m: nat, n: nat)
    ensures TwoTo(m + n) == TwoTo(m) * TwoTo(n)
  {
    if m > 0 {
      TwoToAdds(m - 1, n);
      assert TwoTo(m + n) == 2 * TwoTo(m + n - 1) && TwoTo(m) == 2 * TwoTo(m - 1);
      hide TwoTo;
      TwiceTimes(TwoTo(m - 1), TwoTo(n));
    }
  }

  lemma Powers()
    ensures TwoTo(8) == 0x100 && TwoTo(16) == 0x1_0000 && TwoTo(32) == TWO_32 && TwoTo(64) == 2 * TWO_63
  {
    assert TwoTo(8) == 0x100;
    hide TwoTo;
    TwoToAdds(8, 8);
    TwoToAdds(16, 16);
    TwoToAdds(32, 32);
  }

  lemma SignExtendWithin(n: nat, bits: Width)
    ensures LONG_MIN <= SignExtend(n, bits) <= LONG_MAX
    ensures bits < 32 ==> LONG_MIN <= n % TwoTo(bits) <= LONG_MAX
  {
    Powers();
    hide TwoTo;
    assert 0 <= n % TwoTo(bits) < TwoTo(bits) <= 2 * TWO_63;
  }

  lemma PushTextWithin(op: Op, env: Env)
    requires IsPush(op)
    ensures PushText(op, env) <= 38
  {
    hide TwoTo, SignExtend, Digits, HexDigits, Wrap, Decimal, WithSign;
    match op
    case Addr(n) =>
      Powers();
      HexDigitsWithin(n % (2 * TWO_63), 16);
    case ConstU(bits, n) => SignExtendWithin(n, bits); DecimalWithin(if bits < 32 then n % TwoTo(bits) else SignExtend(n, bits));
    case ConstS(bits, n) => SignExtendWithin(n, bits); DecimalWithin(SignExtend(n, bits));
    case Lit(_) =>
    case Reg(_) =>
    case Breg(_, offset) => DecimalWithin(Wrap(offset));
    case Fbreg(offset) => DecimalWithin(Wrap(offset));
  }

  /** 38 characters are the most an operation writes. */
  lemma TextWithin(op: Op, env: Env)
    requires op.Bra? ==> LONG_MIN <= op.skip <= LONG_MAX
    ensures Text(op, env) <= 38
  {
    hide Decimal, PushText, BinaryName, UnaryName;
    match op
    case DerefSize(bytes) => DecimalWithin(bytes % 256);
    case Pick(depth) => DecimalWithin(depth % 256);
    case PlusUconst(n) => DecimalWithin(Wrap(n));
    case Bra(skip) => DecimalWithin(skip);
    case Unary(u) => NamesWithin(Plus, u);
    case Binary(b) => NamesWithin(b, Not);
    case _ => if IsPush(op) { PushTextWithin(op, env); }
  }

  lemma NamesWithin(b: BinaryOp, u: UnaryOp)
    ensures 8 <= |BinaryName(b)| <= 11 && |UnaryName(u)| == 9
  {
  }

  lemma {:induction false} BoundWithin(t: Tree, env: Env)
    requires Encodable(t)
    ensures TextBound(t, env) <= 38 * |Code(t)|
  {
    hide Text;
    match t
    case Leaf(op) => TextWithin(op, env);
    case Un(u, t1) => BoundWithin(t1, env); TextWithin(Unary(u), env);
    case Add(t1, n) => BoundWithin(t1, env); TextWithin(PlusUconst(n), env);
    case Bin(b, l, r) => BoundWithin(l, env); BoundWithin(r, env); TextWithin(Binary(b), env);
    case Fetch(t1) => BoundWithin(t1, env); TextWithin(Deref, env); TextWithin(Swap, env); TextWithin(Drop, env);
    case Cond(c, yes, no) =>
      BoundWithin(c, env);
      BoundWithin(yes, env);
      BoundWithin(no, env);
      TextWithin(Bra(|Code(no)| + 3), env);
      TextWithin(Drop, env);
  }

  /** Code of up to 26 operations cannot overflow the buffer, whatever they are. */
  lemma ShortDecodes(t: Tree, env: Env)
    requires Encodable(t) && |Code(t)| <= 26
    ensures Steps(Code(t), Start(), env, Cost(t, env) + 1) == match Value(t, env) case None => Fault case Some(v) => Done(v)
  {
    hide Steps, Value, Cost, Code, TextBound;
    BoundWithin(t, env);
    BoundedDecodes(t, env);
  }

  /** 1 + 1 + ... + 1. */
  function Ones(n: nat): Tree
    requires n > 0
  {
    if n == 1 then Leaf(Lit(1)) else Bin(Plus, Ones(n - 1), Leaf(Lit(1)))
  }

  lemma PlusFacts(env: Env)
    ensures Text(Binary(Plus), env) == 10 && Text(Lit(1), env) == 0 && PushValue(Lit(1), env) == 1
    ensures forall x: int :: LONG_MIN <= x < LONG_MAX ==> ApplyBinary(Plus, x, 1) == Some(x + 1)
  {
  }

  lemma OnesStep(n: nat, env: Env)
    requires 1 < n <= LONG_MAX && Text(Binary(Plus), env) == 10 && Text(Lit(1), env) == 0 && PushValue(Lit(1), env) == 1
    requires ApplyBinary(Plus, n - 1, 1) == Some(n)
    requires Encodable(Ones(n - 1)) && Value(Ones(n - 1), env) == Some(n - 1) && Need(Ones(n - 1), env) <= 2 && Written(Ones(n - 1), env) == 10 * (n - 2)
    ensures Encodable(Ones(n)) && Value(Ones(n), env) == Some(n) && Need(Ones(n), env) <= 2 && Written(Ones(n), env) == 10 * (n - 1)
  {
    hide ApplyBinary, Text, PushValue;
    assert Ones(n) == Bin(Plus, Ones(n - 1), Leaf(Lit(1)));
    hide Ones;
  }

  lemma {:induction false} OnesFacts(n: nat, env: Env)
    requires 0 < n <= LONG_MAX
    ensures Encodable(Ones(n)) && Value(Ones(n), env) == Some(n) && Need(Ones(n), env) <= 2 && Written(Ones(n), env) == 10 * (n - 1)
  {
    PlusFacts(env);
    if n > 1 {
      OnesFacts(n - 1, env);
      OnesStep(n, env);
    } else {
      assert PushValue(Lit(1), env) == 1 && PushText(Lit(1), env) == 0;
    }
  }

  /** Two slots are enough for a sum of ones, and up to 103 of them it is found. From 104 on, the names
      of the additions overflow the buffer. */
  lemma OnesDecodeIff(n: nat, env: Env)
    requires 0 < n <= LONG_MAX
    ensures Encodable(Ones(n)) && Need(Ones(n), env) <= 2
    ensures Steps(Code(Ones(n)), Start(), env, Cost(Ones(n), env) + 1) == if n <= 103 then Done(n) else Fault
  {
    hide Steps, Value, Cost, Code, Written, Need, Encodable;
    OnesFacts(n, env);
    DecodeComputes(Ones(n), env);
  }
}
