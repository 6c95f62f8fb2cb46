/** The location-expression machine of `dexpr.c`: a 512-slot stack, jumps that count operations, and a
    buffer of 1024 characters that grows by the text of every operation run. */
module Dwarf {
  import opened Arithmetic
  import opened Longs

  const SLOTS: nat := 512
  const BUFFER: nat := 1024
  const TWO_32: int := 0x1_0000_0000

  /** Two's complement reading of the low `bits` bits. */
  function SignExtend(x: nat, bits: nat): int {
    var m := TwoTo(bits);
    var low := x % m;
    if 2 * low >= m then low - m else low
  }

  // ----- operations

  datatype UnaryOp = Abs | Negate | Not

  datatype BinaryOp = And | Div | Minus | Mod | Mul | Or | Plus | Shl | Shr | Shra | Xor | Eq | Ge | Gt | Le | Lt | Ne

  /** The bits of a constant. */
  type Width = w: nat | w == 8 || w == 16 || w == 32 || w == 64 witness 8

  /** Operands are unsigned 64-bit; those of jumps have been cut to 16 bits, signed. */
  datatype Op =
    | Addr(n: nat)
    | ConstU(bits: Width, n: nat)
    | ConstS(bits: Width, n: nat)
    | Lit(n: nat)
    | Reg(r: nat)
    | Breg(r: nat, offset: nat)
    | Fbreg(offset: nat)
    | Deref
    | DerefSize(bytes: nat)
    | Dup
    | Drop
    | Over
    | Pick(depth: nat)
    | Swap
    | Rot
    | Unary(u: UnaryOp)
    | Binary(b: BinaryOp)
    | PlusUconst(n: nat)
    | Bra(skip: int)
    | Jump(skip: int)
    | StackValue
    | Nop

  /** The focused thread's registers, the register the frame base names, if it names one, with its
      value, and the debuggee's memory, eight bytes at each address. */
  datatype Env = Env(regs: seq<int>, frame: Option<nat>, frameBase: int, mem: map<int, int>)

  /** The number is cut to an int. */
  function Register(r: nat, env: Env): int {
    var n := r % TWO_32;
    if n < 32 && n < |env.regs| then Wrap(env.regs[n]) else 0
  }

  /** A failed read leaves 0. */
  function Load(addr: int, env: Env): int {
    if addr in env.mem then Wrap(env.mem[addr]) else 0
  }

  predicate IsPush(op: Op) {
    op.Addr? || op.ConstU? || op.ConstS? || op.Lit? || op.Reg? || op.Breg? || op.Fbreg?
  }

  function PushValue(op: Op, env: Env): int
    requires IsPush(op)
  {
    match op
    case Addr(n) => Wrap(n)
    case ConstU(bits, n) => Wrap(n % TwoTo(bits))
    case ConstS(bits, n) => Wrap(SignExtend(n, bits))
    case Lit(n) => Wrap(n)
    case Reg(r) => Register(r, env)
    case Breg(r, offset) => Wrap(Register(r, env) + Wrap(offset))
    case Fbreg(offset) => FrameValue(Wrap(offset), env)
  }

  /** What the expression evaluator makes of the frame register's name and a signed offset: an error
      without a register; with a register that has no name a minus sign is the offset's own and a plus
      finds no left operand. The digits of LONG_MIN read as LONG_MAX before the sign applies. */
  function FrameValue(offset: int, env: Env): int {
    var signed := if offset == LONG_MIN then -LONG_MAX else offset;
    match env.frame
    case None => LONG_MIN
    case Some(r) => if RegisterName(r) > 0 then Wrap(env.frameBase + signed) else if offset < 0 then signed else Wrap(LONG_MIN + offset)
  }

  function ApplyUnary(u: UnaryOp, x: int): int {
    match u
    case Abs => if x < 0 then Wrap(-x) else x
    case Negate => Wrap(-x)
    case Not => -1 - x
  }

  predicate OnBits(op: BinaryOp, p: bool, q: bool) {
    match op
    case And => p && q
    case Or => p || q
    case _ => p != q
  }

  /** The low `n` bits one by one, then the signs. */
  function Bitwise(op: BinaryOp, x: int, y: int, n: nat): int
    decreases n
  {
    if n == 0 then if OnBits(op, x < 0, y < 0) then -1 else 0
    else 2 * Bitwise(op, x / 2, y / 2, n - 1) + if OnBits(op, x % 2 == 1, y % 2 == 1) then 1 else 0
  }

  function Truth(b: bool): int { if b then 1 else 0 }

  /** None where C leaves the result undefined: a zero divisor or a shift count out of range. `mod`
      has the sign of its left operand. Right shifts are what the C operators do to signed values. */
  function ApplyBinary(op: BinaryOp, a: int, b: int): Option<int> {
    match op
    case And => Some(Bitwise(And, a, b, 63))
    case Or => Some(Bitwise(Or, a, b, 63))
    case Xor => Some(Bitwise(Xor, a, b, 63))
    case Plus => Some(Wrap(a + b))
    case Minus => Some(Wrap(a - b))
    case Mul => Some(Wrap(a * b))
    case Div => if b == 0 then None else Some(Wrap(TruncDiv(a, b)))
    case Mod => if b == 0 then None else Some(Wrap(a - b * TruncDiv(a, b)))
    case Shl => if 0 <= b < 64 then Some(Wrap(a * TwoTo(b))) else None
    case Shr => if 0 <= b < 64 then Some(a / TwoTo(b)) else None
    case Shra => if 0 <= b < 31 then Some(TruncDiv(a, TwoTo(b))) else None
    case Eq => Some(Truth(a == b))
    case Ge => Some(Truth(a >= b))
    case Gt => Some(Truth(a > b))
    case Le => Some(Truth(a <= b))
    case Lt => Some(Truth(a < b))
    case Ne => Some(Truth(a != b))
  }

  // ----- opcodes (section 7.7.1 of DWARF version 4)

  function BinaryOf(code: nat): Option<BinaryOp> {
    if code == 0x1a then Some(And) else if code == 0x1b then Some(Div) else if code == 0x1c then Some(Minus)
    else if code == 0x1d then Some(Mod) else if code == 0x1e then Some(Mul) else if code == 0x21 then Some(Or)
    else if code == 0x22 then Some(Plus) else if code == 0x24 then Some(Shl) else if code == 0x25 then Some(Shr)
    else if code == 0x26 then Some(Shra) else if code == 0x27 then Some(Xor) else if code == 0x29 then Some(Eq)
    else if code == 0x2a then Some(Ge) else if code == 0x2b then Some(Gt) else if code == 0x2c then Some(Le)
    else if code == 0x2d then Some(Lt) else if code == 0x2e then Some(Ne) else None
  }

  function ConstOf(code: nat, n: nat): Op
    requires 0x08 <= code <= 0x11
  {
    var bits: Width := if code < 0x0a then 8 else if code < 0x0c then 16 else if code < 0x0e then 32 else 64;
    if code % 2 == 0 then ConstU(bits, n) else ConstS(bits, n)
  }

  function StackOpOf(code: nat, n: nat): Op {
    if code == 0x06 then Deref else if code == 0x12 then Dup else if code == 0x13 then Drop
    else if code == 0x14 then Over else if code == 0x15 then Pick(n) else if code == 0x16 then Swap
    else if code == 0x17 then Rot else if code == 0x19 then Unary(Abs) else if code == 0x1f then Unary(Negate)
    else if code == 0x20 then Unary(Not) else if code == 0x23 then PlusUconst(n) else if code == 0x28 then Bra(SignExtend(n, 16))
    else if code == 0x2f then Jump(SignExtend(n, 16)) else if code == 0x94 then DerefSize(n) else if code == 0x9f then StackValue
    else Nop
  }

  /** The dispatch on an operation's code and operands; codes without an implementation do nothing. */
  function OpOf(code: nat, opd1: nat, opd2: nat): Op {
    if code == 0x03 then Addr(opd1)
    else if 0x08 <= code <= 0x11 then ConstOf(code, opd1)
    else if 0x30 <= code <= 0x4f then Lit(code - 0x30)
    else if 0x50 <= code <= 0x6f then Reg(code - 0x50)
    else if 0x70 <= code <= 0x8f then Breg(code - 0x70, opd1)
    else if code == 0x90 then Reg(opd1)
    else if code == 0x91 then Fbreg(opd1)
    else if code == 0x92 then Breg(opd1, opd2)
    else
      match BinaryOf(code)
      case Some(b) => Binary(b)
      case None => StackOpOf(code, opd1)
  }

  // ----- the text of an operation: how many characters it adds to the buffer

  function Digits(n: nat): (d: nat)
    ensures d >= 1
  {
    if n < 10 then 1 else Digits(n / 10) + 1
  }

  /** "%d" and "%lld". */
  function Decimal(x: int): nat {
    if x < 0 then Digits(-x) + 1 else Digits(x)
  }

  /** "%+lld". */
  function WithSign(x: int): nat {
    Digits(if x < 0 then -x else x) + 1
  }

  function HexDigits(n: nat): (d: nat)
    ensures d >= 1
  {
    if n < 16 then 1 else HexDigits(n / 16) + 1
  }

  /** "%#llx": 0 has no prefix. */
  function Hex(n: nat): nat {
    if n == 0 then 1 else 2 + HexDigits(n)
  }

  /** $x0 to $x28, $fp, $lr, $sp; nothing for other numbers, which are cut to 16 bits. */
  function RegisterName(r: nat): nat {
    var n := r % 0x10000;
    if n < 10 then 3 else if n < 29 then 4 else if n < 32 then 3 else 0
  }

  /** No register prints as "(null)". */
  function FrameName(env: Env): nat {
    match env.frame
    case None => 6
    case Some(r) => RegisterName(r)
  }

  function BinaryName(b: BinaryOp): string {
    match b
    case And => "DW_OP_and"
    case Div => "DW_OP_div"
    case Minus => "DW_OP_minus"
    case Mod => "DW_OP_mod"
    case Mul => "DW_OP_mul"
    case Or => "DW_OP_or"
    case Plus => "DW_OP_plus"
    case Shl => "DW_OP_shl"
    case Shr => "DW_OP_shr"
    case Shra => "DW_OP_shra"
    case Xor => "DW_OP_xor"
    case Eq => "DW_OP_eq"
    case Ge => "DW_OP_ge"
    case Gt => "DW_OP_gt"
    case Le => "DW_OP_le"
    case Lt => "DW_OP_lt"
    case Ne => "DW_OP_ne"
  }

  function UnaryName(u: UnaryOp): string {
    match u
    case Abs => "DW_OP_abs"
    case Negate => "DW_OP_neg"
    case Not => "DW_OP_not"
  }

  /** Constants of 32 bits print as signed, and so do those of 64. */
  function PushText(op: Op, env: Env): nat
    requires IsPush(op)
  {
    match op
    case Addr(n) => Hex(n % (2 * TWO_63))
    case ConstU(bits, n) => Decimal(if bits < 32 then n % TwoTo(bits) else SignExtend(n, bits))
    case ConstS(bits, n) => Decimal(SignExtend(n, bits))
    case Lit(_) => 0
    case Reg(r) => RegisterName(r)
    case Breg(r, offset) => RegisterName(r) + WithSign(Wrap(offset))
    case Fbreg(offset) => FrameName(env) + WithSign(Wrap(offset))
  }

  /** Name and printed operand. Only an operation that does not jump adds them. */
  function Text(op: Op, env: Env): nat {
    match op
    case Deref => |" DW_OP_deref"|
    case DerefSize(bytes) => |"DW_OP_deref_size "| + Decimal(bytes % 256)
    case Dup => |"DW_OP_dup"|
    case Drop => |"DW_OP_drop"|
    case Over => |"DW_OP_over"|
    case Pick(depth) => |"DW_OP_pick"| + Decimal(depth % 256)
    case Swap => |"DW_OP_swap"|
    case Rot => |"DW_OP_rot"|
    case Unary(u) => |UnaryName(u)|
    case Binary(b) => |BinaryName(b)|
    case PlusUconst(n) => |"DW_OP_plus_uconst "| + Decimal(Wrap(n))
    case Bra(skip) => |"DW_OP_bra "| + Decimal(skip)
    case Jump(_) => 0
    case StackValue => 0
    case Nop => 0
    case _ => PushText(op, env)
  }

  // ----- the stack

  /** `sp` is an unsigned int: it wraps. */
  function U32(x: int): (r: nat)
    ensures r < TWO_32 && (0 <= x < TWO_32 ==> r == x)
  {
    x % TWO_32
  }

  /** The stack, and beside it the characters written to the text buffer. */
  datatype Slots = Slots(sp: nat, cells: seq<int>, text: nat) {
    predicate Valid() { |cells| == SLOTS && sp < TWO_32 }

    /** The index `depth` below the top, or above it if negative. */
    function Index(depth: int): nat { U32(sp - depth) }

    predicate Has(depth: int) { Index(depth) < |cells| }

    function Get(depth: int): int
      requires Has(depth)
    {
      cells[Index(depth)]
    }

    function Set(depth: int, v: int): Slots
      requires Has(depth)
    {
      this.(cells := cells[Index(depth) := v])
    }

    function Move(delta: int): Slots { this.(sp := U32(sp + delta)) }
  }

  /** An access outside the stack or an undefined operation. */
  datatype Effect = Bad | Good(s: Slots)

  function Push(s: Slots, v: int): Effect {
    if s.Has(-1) then Good(s.Set(-1, v).Move(1)) else Bad
  }

  /** Copies the value `depth` below the top. */
  function PushCopy(s: Slots, depth: nat): Effect {
    if s.Has(depth) then Push(s, s.Get(depth)) else Bad
  }

  function ExecBinary(s: Slots, b: BinaryOp): Effect {
    if s.Has(1) && s.Has(0) then
      match ApplyBinary(b, s.Get(1), s.Get(0))
      case None => Bad
      case Some(v) => Good(s.Set(1, v).Move(-1))
    else Bad
  }

  function ExecSwap(s: Slots): Effect {
    if s.Has(1) && s.Has(0) then Good(s.Set(0, s.Get(1)).Set(1, s.Get(0))) else Bad
  }

  function ExecRot(s: Slots): Effect {
    if s.Has(2) && s.Has(1) && s.Has(0) then
      Good(s.(cells := s.cells[s.Index(0) := s.Get(1)][s.Index(1) := s.Get(2)][s.Index(2) := s.Get(0)]))
    else Bad
  }

  /** `deref` pushes what the top points to and leaves the address below it. */
  function ExecDeref(s: Slots, bytes: nat, env: Env): Effect {
    if !s.Has(0) then Bad
    else if 1 <= bytes < 8 then Push(s, Load(s.Get(0), env) % TwoTo(8 * bytes))
    else if bytes == 8 then Push(s, Load(s.Get(0), env))
    else Good(s)
  }

  /** An operation that does not jump. */
  function Exec(op: Op, s: Slots, env: Env): Effect {
    match op
    case Deref => ExecDeref(s, 8, env)
    case DerefSize(bytes) => ExecDeref(s, bytes % 256, env)
    case Dup => PushCopy(s, 0)
    case Drop => Good(s.Move(-1))
    case Over => PushCopy(s, 1)
    case Pick(depth) => PushCopy(s, depth % 256)
    case Swap => ExecSwap(s)
    case Rot => ExecRot(s)
    case Unary(u) => if s.Has(0) then Good(s.Set(0, ApplyUnary(u, s.Get(0)))) else Bad
    case Binary(b) => ExecBinary(s, b)
    case PlusUconst(n) => if s.Has(0) then Good(s.Set(0, Wrap(s.Get(0) + Wrap(n)))) else Bad
    case Bra(_) => Good(s)
    case Jump(_) => Good(s)
    case StackValue => Good(s)
    case Nop => Good(s)
    case _ => Push(s, PushValue(op, env))
  }

  // ----- runs

  datatype Machine = Fault | Done(result: int) | On(pc: nat, s: Slots)

  function Result(s: Slots): Machine {
    if s.Has(0) then Done(s.Get(0)) else Fault
  }

  /** A jump counts operations. Forward it starts from the jump itself, backward from the operation
      behind it. Walking past either end of the list faults; stopping just there ends the run. */
  function JumpTo(pc: nat, skip: int, n: nat, s: Slots): Machine {
    var target := if skip < 0 then pc + skip + 1 else pc + skip;
    if target < -1 || target > n then Fault
    else if target == -1 then Result(s)
    else On(target, s)
  }

  /** Behind an operation its text is appended, with a closing 0. Past the buffer's end the run faults. */
  function Append(pc: nat, s: Slots, n: nat): Machine {
    if s.text + n < BUFFER then On(pc, s.(text := s.text + n)) else Fault
  }

  function Step(ops: seq<Op>, m: Machine, env: Env): Machine {
    match m
    case On(pc, s) =>
      if pc >= |ops| then Result(s)
      else if ops[pc].StackValue? then Result(s)
      else if ops[pc].Jump? then JumpTo(pc, ops[pc].skip, |ops|, s)
      else if ops[pc].Bra? then
        if !s.Has(0) then Fault
        else if s.Get(0) != 0 then JumpTo(pc, ops[pc].skip, |ops|, s)
        else Append(pc + 1, s, Text(ops[pc], env))
      else
        (match Exec(ops[pc], s, env)
         case Bad => Fault
         case Good(s1) => Append(pc + 1, s1, Text(ops[pc], env)))
    case _ => m
  }

  function Steps(ops: seq<Op>, m: Machine, env: Env, n: nat): Machine
    decreases n
  {
    if n == 0 then m else Steps(ops, Step(ops, m, env), env, n - 1)
  }

  /** Where decode_location_description starts. */
  function Start(): Machine {
    On(0, Slots(0, seq(SLOTS, _ => 0), 0))
  }

  lemma {:induction false} StepsAdd(ops: seq<Op>, m: Machine, env: Env, a: nat, b: nat)
    ensures Steps(ops, m, env, a + b) == Steps(ops, Steps(ops, m, env, a), env, b)
    decreases a
  {
    hide Step;
    if a > 0 { StepsAdd(ops, Step(ops, m, env), env, a - 1, b); }
  }

  lemma {:induction false} StepsStay(ops: seq<Op>, m: Machine, env: Env, n: nat)
    requires !m.On?
    ensures Steps(ops, m, env, n) == m
  {
    if n > 0 { StepsStay(ops, m, env, n - 1); }
  }

  /** Every jump goes forward. */
  predicate Forward(ops: seq<Op>) {
    forall k :: 0 <= k < |ops| ==> (ops[k].Bra? || ops[k].Jump? ==> ops[k].skip > 0)
  }

  /** With forward jumps only, whatever they are, decoding ends: the operations left are the measure. */
  lemma {:induction false} ForwardEnds(ops: seq<Op>, pc: nat, s: Slots, env: Env)
    requires Forward(ops) && pc <= |ops|
    ensures !Steps(ops, On(pc, s), env, |ops| - pc + 1).On?
    decreases |ops| - pc
  {
    hide Exec;
    var m := Step(ops, On(pc, s), env);
    if m.On? {
      assert pc < m.pc <= |ops|;
      ForwardEnds(ops, m.pc, m.s, env);
      var left := |ops| - m.pc + 1;
      StepsAdd(ops, m, env, left, m.pc - pc - 1);
      StepsStay(ops, Steps(ops, m, env, left), env, m.pc - pc - 1);
    } else {
      StepsStay(ops, m, env, |ops| - pc);
    }
  }

  /** Where a taken jump leads: as many operations on from itself, or back from the one behind it; just before
      the first operation the run ends, and farther out it faults. */
  lemma JumpLands(ops: seq<Op>, pc: nat, s: Slots, env: Env)
    requires pc < |ops| && (ops[pc].Jump? || (ops[pc].Bra? && s.Has(0) && s.Get(0) != 0))
    ensures var k, m := ops[pc].skip, Step(ops, On(pc, s), env);
      && (forall q: nat :: m == On(q, s) <==> q <= |ops| && (if k >= 0 then q - pc == k else pc + 1 - q == -k))
      && (k == -(pc + 2) ==> m == Result(s))
      && (k < -(pc + 2) || k > |ops| - pc ==> m == Fault)
  {
    hide Exec, Text;
  }

  /** A machine stands still exactly at a taken jump by 0 or -1: then decoding never ends. */
  lemma StandsStillIff(ops: seq<Op>, pc: nat, s: Slots, env: Env)
    requires pc < |ops|
    ensures Step(ops, On(pc, s), env) == On(pc, s) <==>
      (ops[pc].Jump? || (ops[pc].Bra? && s.Has(0) && s.Get(0) != 0)) && -1 <= ops[pc].skip <= 0
  {
    hide Exec;
  }

  lemma {:induction false} StandsStillForever(ops: seq<Op>, pc: nat, s: Slots, env: Env, n: nat)
    requires Step(ops, On(pc, s), env) == On(pc, s)
    ensures Steps(ops, On(pc, s), env, n) == On(pc, s)
  {
    hide Step;
    if n > 0 { StandsStillForever(ops, pc, s, env, n - 1); }
  }

  // ----- where the operators depart from section 2.5.1 of DWARF version 4

  /** The standard's `shr` shifts in zeros. */
  function LogicalShr(a: int, n: nat): int {
    Wrap((a % (2 * TWO_63)) / TwoTo(n))
  }

  /** The standard's `shra` copies the sign. */
  function ArithmeticShr(a: int, n: nat): int {
    a / TwoTo(n)
  }

  /** `shr` is the standard's exactly on non-negative values, or when nothing is shifted. */
  lemma ShrIff(a: int, n: nat)
    requires LONG_MIN <= a <= LONG_MAX && n < 64
    ensures ApplyBinary(Shr, a, n) == Some(LogicalShr(a, n)) <==> a >= 0 || n == 0
  {
    if n == 0 {
      assert TwoTo(0) == 1;
    } else {
      assert TwoTo(n) == 2 * TwoTo(n - 1);
      hide TwoTo;
      ShiftedZeros(a, TwoTo(n));
    }
  }

  lemma ShiftedZeros(a: int, p: nat)
    requires LONG_MIN <= a <= LONG_MAX && p >= 2
    ensures a / p == Wrap((a % (2 * TWO_63)) / p) <==> a >= 0
  {
    DivBounds(a, p);
    var u := a % (2 * TWO_63);
    assert u == if a >= 0 then a else a + 2 * TWO_63;
    HalfBounds(u, p);
    assert Wrap(u / p) == u / p;
  }

  lemma Times(k: int, p: nat)
    requires p > 0
    ensures k >= 1 ==> k * p >= p && k * p >= k
    ensures k <= -1 ==> k * p + p <= 0
  {
  }

  lemma DivBounds(a: int, p: nat)
    requires p > 0
    ensures a >= 0 ==> 0 <= a / p <= a
    ensures a < 0 ==> a / p < 0
  {
    assert a == a / p * p + a % p;
    Times(a / p, p);
  }

  lemma Twice(q: nat, p: nat)
    requires p >= 2
    ensures 2 * q <= q * p
  {
    assert q * p == 2 * q + q * (p - 2);
  }

  lemma HalfBounds(a: nat, p: nat)
    requires p >= 2 && a < 2 * TWO_63
    ensures 0 <= a / p < TWO_63
  {
    var q := a / p;
    assert a == q * p + a % p;
    DivBounds(a, p);
    Twice(q, p);
  }

  /** `shra` divides, truncating: it is the standard's exactly on non-negative values and on multiples
      of the divisor. */
  lemma ShraIff(a: int, n: nat)
    requires LONG_MIN <= a <= LONG_MAX && n < 31
    ensures ApplyBinary(Shra, a, n) == Some(ArithmeticShr(a, n)) <==> a >= 0 || a % TwoTo(n) == 0
  {
    if a < 0 { TruncatesUp(a, TwoTo(n)); }
  }

  lemma TruncatesUp(a: int, p: nat)
    requires a < 0 && p > 0
    ensures -((-a) / p) == a / p <==> a % p == 0
  {
    var q, r := a / p, a % p;
    assert a == q * p + r;
    var q1, r1 := (-a) / p, (-a) % p;
    assert -a == q1 * p + r1;
    assert (q + q1) * p == q * p + q1 * p == -(r + r1);
    Times(q + q1, p);
  }
}
