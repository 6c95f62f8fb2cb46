/** What location operations mean, said of integers, bits and stacks in the order of section 2.5.1 of
    DWARF version 4, and that the machine does it. Where the code departs from the standard, what is
    said is what the code does; `Dwarf.ShrIff` and `Dwarf.ShraIff` tell when that is the same. */
module DwarfMeaning {
  import opened Arithmetic
  import opened Longs
  import opened Dwarf
  import opened DwarfCompile

  // ----- operators

  /** `a` is the former second entry, `b` the former top. None where C leaves the result undefined. */
  ghost predicate BinaryMeans(op: BinaryOp, a: int, b: int, v: Option<int>) {
    match op
    case And => v.Some? && IsLong(v.value) && forall i: nat :: Bit(v.value, i) == (Bit(a, i) && Bit(b, i))
    case Or => v.Some? && IsLong(v.value) && forall i: nat :: Bit(v.value, i) == (Bit(a, i) || Bit(b, i))
    case Xor => v.Some? && IsLong(v.value) && forall i: nat :: Bit(v.value, i) == (Bit(a, i) != Bit(b, i))
    case Plus => v.Some? && Becomes(a + b, v.value)
    case Minus => v.Some? && Becomes(a - b, v.value)
    case Mul => v.Some? && Becomes(a * b, v.value)
    case Div => if b == 0 then v.None? else v.Some? && exists q, r :: Quotient(a, b, q, r) && Becomes(q, v.value)
    case Mod => if b == 0 then v.None? else v.Some? && exists q :: Quotient(a, b, q, v.value)
    case Shl => if 0 <= b < 64 then v.Some? && Becomes(a * TwoTo(b), v.value) else v.None?
    case Shr => if 0 <= b < 64 then v.Some? && 0 <= a - v.value * TwoTo(b) < TwoTo(b) else v.None?
    case Shra => if 0 <= b < 31 then v.Some? && exists r :: Quotient(a, TwoTo(b), v.value, r) else v.None?
    case Eq => v == Some(if a == b then 1 else 0)
    case Ge => v == Some(if a < b then 0 else 1)
    case Gt => v == Some(if b < a then 1 else 0)
    case Le => v == Some(if b < a then 0 else 1)
    case Lt => v == Some(if a < b then 1 else 0)
    case Ne => v == Some(if a == b then 0 else 1)
  }

  ghost predicate UnaryMeans(u: UnaryOp, x: int, v: int) {
    match u
    case Abs => Becomes(Size(x), v)
    case Negate => Becomes(-x, v)
    case Not => IsLong(v) && forall i: nat :: Bit(v, i) != Bit(x, i)
  }

  lemma {:induction false} SignBits(i: nat)
    ensures Bit(-1, i) && !Bit(0, i)
  {
    if i > 0 {
      SignBits(i - 1);
      BitNext(-1, i);
      BitNext(0, i);
    }
  }

  /** A number of `n` bits and a sign. */
  predicate Within(x: int, n: nat) {
    0 <= x + TwoTo(n) < 2 * TwoTo(n)
  }

  lemma {:induction false} BitwiseBits(op: BinaryOp, x: int, y: int, n: nat, i: nat)
    requires Within(x, n) && Within(y, n)
    ensures Bit(Bitwise(op, x, y, n), i) == OnBits(op, Bit(x, i), Bit(y, i))
    decreases n
  {
    var v := Bitwise(op, x, y, n);
    if n == 0 {
      SignBits(i);
      assert x == (if x < 0 then -1 else 0) && y == if y < 0 then -1 else 0;
    } else if i == 0 {
      assert v % 2 == if OnBits(op, x % 2 == 1, y % 2 == 1) then 1 else 0;
      LowBit(v);
      LowBit(x);
      LowBit(y);
    } else {
      BitwiseBits(op, x / 2, y / 2, n - 1, i - 1);
      BitNext(x, i);
      BitNext(y, i);
      BitNext(v, i);
    }
  }

  lemma LowBit(x: int)
    ensures Bit(x, 0) <==> x % 2 == 1
  {
    assert TwoTo(0) == 1 && x / 1 == x;
  }

  lemma {:induction false} BitwiseWithin(op: BinaryOp, x: int, y: int, n: nat)
    ensures Within(Bitwise(op, x, y, n), n)
    decreases n
  {
    if n > 0 { BitwiseWithin(op, x / 2, y / 2, n - 1); }
  }

  lemma LongBound()
    ensures TwoTo(63) == 0x8000_0000_0000_0000
  {
    assert TwoTo(8) == 0x100;
    assert TwoTo(16) == 0x100 * TwoTo(8);
    assert TwoTo(24) == 0x100 * TwoTo(16);
    assert TwoTo(32) == 0x100 * TwoTo(24);
    assert TwoTo(40) == 0x100 * TwoTo(32);
    assert TwoTo(48) == 0x100 * TwoTo(40);
    assert TwoTo(56) == 0x100 * TwoTo(48);
    assert TwoTo(63) == 0x80 * TwoTo(56);
  }

  lemma BitwiseMeans(op: BinaryOp, a: int, b: int)
    requires IsLong(a) && IsLong(b) && (op.And? || op.Or? || op.Xor?)
    ensures BinaryMeans(op, a, b, ApplyBinary(op, a, b))
  {
    var v := Bitwise(op, a, b, 63);
    LongBound();
    BitwiseWithin(op, a, b, 63);
    hide Bitwise, Bit, TwoTo;
    forall i: nat ensures Bit(v, i) == OnBits(op, Bit(a, i), Bit(b, i)) { BitwiseBits(op, a, b, 63, i); }
  }

  lemma ShiftMeans(op: BinaryOp, a: int, b: int)
    requires IsLong(a) && (op.Shl? || op.Shr? || op.Shra?)
    ensures BinaryMeans(op, a, b, ApplyBinary(op, a, b))
  {
    hide TwoTo, TruncDiv, Wrap, Quotient;
    if 0 <= b < 64 {
      WrapBecomes(a * TwoTo(b));
      FloorIs(a, TwoTo(b));
      TruncDivIs(a, TwoTo(b));
    }
  }

  lemma FloorIs(a: int, p: nat)
    requires p > 0
    ensures 0 <= a - (a / p) * p < p
  {
  }

  lemma ArithmeticMeans(op: BinaryOp, a: int, b: int)
    requires IsLong(a) && IsLong(b) && (op.Plus? || op.Minus? || op.Mul? || op.Div? || op.Mod?)
    ensures BinaryMeans(op, a, b, ApplyBinary(op, a, b))
  {
    hide Wrap, TruncDiv, Quotient, Becomes;
    WrapBecomes(a + b);
    WrapBecomes(a - b);
    WrapBecomes(a * b);
    if b != 0 {
      var q, r := TruncDiv(a, b), a - b * TruncDiv(a, b);
      TruncDivIs(a, b);
      WrapBecomes(q);
      RestIsLong(a, b, q, r);
      WrapKeeps(r);
    }
  }

  lemma WrapKeeps(x: int)
    requires IsLong(x)
    ensures Wrap(x) == x
  {
  }

  lemma RestIsLong(a: int, b: int, q: int, r: int)
    requires IsLong(a) && IsLong(b) && Quotient(a, b, q, r)
    ensures IsLong(r)
  {
  }

  /** All seventeen binary operators. */
  lemma ApplyBinaryMeans(op: BinaryOp, a: int, b: int)
    requires IsLong(a) && IsLong(b)
    ensures BinaryMeans(op, a, b, ApplyBinary(op, a, b))
  {
    if op.And? || op.Or? || op.Xor? { BitwiseMeans(op, a, b); }
    else if op.Shl? || op.Shr? || op.Shra? { ShiftMeans(op, a, b); }
    else if op.Plus? || op.Minus? || op.Mul? || op.Div? || op.Mod? { ArithmeticMeans(op, a, b); }
  }

  /** The three unary ones. */
  lemma ApplyUnaryMeans(u: UnaryOp, x: int)
    requires IsLong(x)
    ensures UnaryMeans(u, x, ApplyUnary(u, x))
  {
    WrapBecomes(-x);
    hide Wrap, Bit;
    forall i: nat ensures u.Not? ==> Bit(-1 - x, i) != Bit(x, i) { NotBits(x, i); }
    if x >= 0 { BecomesItself(x, x); }
  }

  lemma {:induction false} NotBits(x: int, i: nat)
    ensures Bit(-1 - x, i) != Bit(x, i)
    decreases i
  {
    if i == 0 {
      LowBit(x);
      LowBit(-1 - x);
    } else {
      NotBits(x / 2, i - 1);
      BitNext(x, i);
      BitNext(-1 - x, i);
      assert (-1 - x) / 2 == -1 - x / 2;
    }
  }

  // ----- pushes

  /** The register's value, 0 for a number without a register; the number is cut to 32 bits. */
  ghost predicate RegisterMeans(r: nat, env: Env, v: int) {
    var n := r % 0x1_0000_0000;
    if n < 32 && n < |env.regs| then Becomes(env.regs[n], v) else v == 0
  }

  /** `u` is `n` cut to its low `bits` bits. */
  ghost predicate Cut(n: nat, bits: nat, u: int) {
    exists k: int :: n - u == k * TwoTo(bits)
  }

  ghost predicate PushMeans(op: Op, env: Env, v: int)
    requires IsPush(op)
  {
    match op
    case Addr(n) => Becomes(n, v)
    case ConstU(bits, n) => exists u :: 0 <= u < TwoTo(bits) && Cut(n, bits, u) && Becomes(u, v)
    case ConstS(bits, n) => Cut(n, bits, v) && 0 <= v + TwoTo(bits - 1) < TwoTo(bits)
    case Lit(n) => Becomes(n, v)
    case Reg(r) => RegisterMeans(r, env, v)
    case Breg(r, offset) => exists x, o :: RegisterMeans(r, env, x) && Becomes(offset, o) && Becomes(x + o, v)
    case Fbreg(offset) => exists o :: Becomes(offset, o) && FrameMeans(o, env, v)
  }

  /** The frame base and the signed offset, unless no register is named. The expression evaluator reads
      the offset's digits, which saturate. */
  ghost predicate FrameMeans(o: int, env: Env, v: int) {
    match env.frame
    case None => v == -0x8000_0000_0000_0000
    case Some(r) =>
      if r % 0x10000 < 32 then Becomes(env.frameBase + (if o == -0x8000_0000_0000_0000 then o + 1 else o), v)
      else v == if o >= 0 then o - 0x8000_0000_0000_0000 else if o == -0x8000_0000_0000_0000 then o + 1 else o
  }

  lemma RegisterIs(r: nat, env: Env)
    ensures RegisterMeans(r, env, Register(r, env))
  {
    var n := r % TWO_32;
    if n < 32 && n < |env.regs| { WrapBecomes(env.regs[n]); }
  }

  lemma CutIs(n: nat, bits: nat)
    ensures Cut(n, bits, n % TwoTo(bits))
  {
    hide TwoTo;
    var p := TwoTo(bits);
    assert n - n % p == (n / p) * p;
  }

  lemma CutBy(n: nat, bits: nat, u: int, k: int)
    requires n - u == k * TwoTo(bits)
    ensures Cut(n, bits, u)
  {
  }

  lemma OneMoreTime(q: int, p: int)
    ensures (q + 1) * p == q * p + p
  {
  }

  lemma Divided(n: int, p: nat)
    requires p > 0
    ensures n == n / p * p + n % p && 0 <= n % p < p
  {
  }

  lemma SignExtendIs(n: nat, bits: nat)
    requires bits > 0
    ensures var p := TwoTo(bits); SignExtend(n, bits) == if n % p >= TwoTo(bits - 1) then n % p - p else n % p
  {
    assert TwoTo(bits) == 2 * TwoTo(bits - 1);
    hide TwoTo;
  }

  lemma SignExtendMeans(n: nat, bits: Width)
    ensures Cut(n, bits, SignExtend(n, bits)) && 0 <= SignExtend(n, bits) + TwoTo(bits - 1) < TwoTo(bits)
  {
    SignExtendIs(n, bits);
    assert TwoTo(bits) == 2 * TwoTo(bits - 1);
    hide TwoTo, Cut, SignExtend;
    var p := TwoTo(bits);
    var q, low := n / p, n % p;
    Divided(n, p);
    OneMoreTime(q, p);
    CutBy(n, bits, SignExtend(n, bits), if low >= TwoTo(bits - 1) then q + 1 else q);
  }

  lemma SignExtendLong(n: nat, bits: Width)
    ensures IsLong(SignExtend(n, bits))
  {
    SignExtendWithin(n, bits);
  }

  /** What each push pushes. */
  lemma PushValueMeans(op: Op, env: Env)
    requires IsPush(op)
    ensures PushMeans(op, env, PushValue(op, env))
  {
    hide TwoTo, Wrap, SignExtend, Register, RegisterMeans, Becomes, Cut, FrameValue, FrameMeans;
    match op
    case Addr(n) => WrapBecomes(n);
    case ConstU(bits, n) =>
      CutIs(n, bits);
      WrapBecomes(n % TwoTo(bits));
    case ConstS(bits, n) =>
      SignExtendMeans(n, bits);
      SignExtendLong(n, bits);
      WrapKeeps(SignExtend(n, bits));
    case Lit(n) => WrapBecomes(n);
    case Reg(r) => RegisterIs(r, env);
    case Breg(r, offset) =>
      RegisterIs(r, env);
      WrapBecomes(offset);
      WrapBecomes(Register(r, env) + Wrap(offset));
    case Fbreg(offset) =>
      WrapBecomes(offset);
      FrameValueMeans(Wrap(offset), env);
  }

  lemma FrameValueMeans(o: int, env: Env)
    requires IsLong(o)
    ensures FrameMeans(o, env, FrameValue(o, env))
  {
    hide Wrap, Becomes;
    var signed := if o == LONG_MIN then -LONG_MAX else o;
    WrapBecomes(env.frameBase + signed);
    if o >= 0 { WrapKeeps(LONG_MIN + o); }
  }

  // ----- codes (section 7.7.1 of DWARF version 4)

  /** The codes of an operation with their operands. */
  ghost predicate Encodes(op: Op, code: nat, opd1: nat, opd2: nat) {
    match op
    case Addr(n) => code == 0x03 && opd1 == n
    case ConstU(bits, n) => opd1 == n && code in (if bits == 8 then {0x08} else if bits == 16 then {0x0a} else if bits == 32 then {0x0c} else {0x0e, 0x10})
    case ConstS(bits, n) => opd1 == n && code in (if bits == 8 then {0x09} else if bits == 16 then {0x0b} else if bits == 32 then {0x0d} else {0x0f, 0x11})
    case Lit(n) => n < 32 && code == 0x30 + n
    case Reg(r) => (r < 32 && code == 0x50 + r) || (code == 0x90 && opd1 == r)
    case Breg(r, offset) => (r < 32 && code == 0x70 + r && opd1 == offset) || (code == 0x92 && opd1 == r && opd2 == offset)
    case Fbreg(offset) => code == 0x91 && opd1 == offset
    case Deref => code == 0x06
    case DerefSize(bytes) => code == 0x94 && opd1 == bytes
    case Dup => code == 0x12
    case Drop => code == 0x13
    case Over => code == 0x14
    case Pick(depth) => code == 0x15 && opd1 == depth
    case Swap => code == 0x16
    case Rot => code == 0x17
    case Unary(u) => code == (match u case Abs => 0x19 case Negate => 0x1f case Not => 0x20)
    case Binary(b) => code == BinaryCode(b)
    case PlusUconst(n) => code == 0x23 && opd1 == n
    case Bra(skip) => code == 0x28 && Short(opd1, skip)
    case Jump(skip) => code == 0x2f && Short(opd1, skip)
    case StackValue => code == 0x9f
    case Nop => false
  }

  function BinaryCode(b: BinaryOp): nat {
    match b
    case And => 0x1a case Div => 0x1b case Minus => 0x1c case Mod => 0x1d case Mul => 0x1e
    case Or => 0x21 case Plus => 0x22 case Shl => 0x24 case Shr => 0x25 case Shra => 0x26 case Xor => 0x27
    case Eq => 0x29 case Ge => 0x2a case Gt => 0x2b case Le => 0x2c case Lt => 0x2d case Ne => 0x2e
  }

  /** The low 16 bits of an operand, signed. */
  predicate Short(n: nat, skip: int) {
    -0x8000 <= skip <= 0x7fff && (n - skip) % 0x10000 == 0
  }

  lemma ShortIff(n: nat, skip: int)
    ensures SignExtend(n, 16) == skip <==> Short(n, skip)
  {
    Powers();
    hide TwoTo;
  }

  lemma BinaryOfIff(code: nat, b: BinaryOp)
    ensures BinaryOf(code) == Some(b) <==> code == BinaryCode(b)
  {
  }

  /** The codes that are read one by one. */
  predicate Single(code: nat) {
    !(0x08 <= code <= 0x11) && !(0x30 <= code <= 0x92) && code != 0x03
  }

  lemma OpOfSingle(code: nat, opd1: nat, opd2: nat, op: Op)
    requires op != Nop && Single(code)
    ensures OpOf(code, opd1, opd2) == op <==> Encodes(op, code, opd1, opd2)
  {
    if BinaryOf(code).Some? || op.Binary? { OpOfBinary(code, opd1, opd2, op); }
    else { OpOfStack(code, opd1, opd2, op); }
    hide *;
  }

  lemma OpOfBinary(code: nat, opd1: nat, opd2: nat, op: Op)
    requires op != Nop && Single(code) && (BinaryOf(code).Some? || op.Binary?)
    ensures OpOf(code, opd1, opd2) == op <==> Encodes(op, code, opd1, opd2)
  {
    if BinaryOf(code).Some? { BinaryOfIff(code, BinaryOf(code).value); BinaryCodesApart(BinaryOf(code).value); }
    if op.Binary? { BinaryOfIff(code, op.b); }
    hide SignExtend, Short, BinaryOf, BinaryCode, StackOpOf;
  }

  lemma OpOfStack(code: nat, opd1: nat, opd2: nat, op: Op)
    requires op != Nop && Single(code) && BinaryOf(code).None? && !op.Binary?
    ensures OpOf(code, opd1, opd2) == op <==> Encodes(op, code, opd1, opd2)
  {
    hide SignExtend, Short, BinaryOf, BinaryCode;
    if op.Bra? || op.Jump? { ShortIff(opd1, op.skip); }
  }

  lemma BinaryCodesApart(b: BinaryOp)
    ensures BinaryCode(b) in {0x1a, 0x1b, 0x1c, 0x1d, 0x1e, 0x21, 0x22, 0x24, 0x25, 0x26, 0x27, 0x29, 0x2a, 0x2b, 0x2c, 0x2d, 0x2e}
  {
  }

  lemma OpOfRange(code: nat, opd1: nat, opd2: nat, op: Op)
    requires op != Nop && !Single(code)
    ensures OpOf(code, opd1, opd2) == op <==> Encodes(op, code, opd1, opd2)
  {
    hide SignExtend, Short, BinaryCode, BinaryOf, StackOpOf;
    if op.Binary? { BinaryCodesApart(op.b); }
  }

  /** The dispatch reads every implemented code, and only those, as the operation it encodes. */
  lemma OpOfIff(code: nat, opd1: nat, opd2: nat, op: Op)
    requires op != Nop
    ensures OpOf(code, opd1, opd2) == op <==> Encodes(op, code, opd1, opd2)
  {
    if Single(code) { OpOfSingle(code, opd1, opd2, op); } else { OpOfRange(code, opd1, opd2, op); }
  }

  // ----- one meaning each

  /** Numbers with the same bits are the same. */
  lemma {:induction false} SameBits(x: int, y: int, n: nat)
    requires Within(x, n) && Within(y, n) && forall i: nat :: Bit(x, i) == Bit(y, i)
    ensures x == y
    decreases n
  {
    if n == 0 {
      assert x in {-1, 0} && y in {-1, 0};
      SignBits(0);
      assert Bit(x, 0) == Bit(y, 0);
    } else {
      forall i: nat ensures Bit(x / 2, i) == Bit(y / 2, i) {
        BitNext(x, i + 1);
        BitNext(y, i + 1);
      }
      SameBits(x / 2, y / 2, n - 1);
      LowBit(x);
      LowBit(y);
      assert Bit(x, 0) == Bit(y, 0);
    }
  }

  lemma SameLongs(x: int, y: int)
    requires IsLong(x) && IsLong(y) && forall i: nat :: Bit(x, i) == Bit(y, i)
    ensures x == y
  {
    LongBound();
    SameBits(x, y, 63);
  }

  lemma ShiftedOne(a: int, p: nat, v: int, w: int)
    requires p > 0 && 0 <= a - v * p < p && 0 <= a - w * p < p
    ensures v == w
  {
    DivUnique(a, p, v, a - v * p);
    DivUnique(a, p, w, a - w * p);
  }

  lemma BinaryOne(op: BinaryOp, a: int, b: int, v: Option<int>, w: Option<int>)
    requires BinaryMeans(op, a, b, v) && BinaryMeans(op, a, b, w)
    ensures v == w
  {
    hide Bit, IsLong, TwoTo, Becomes, Quotient;
    if v.Some? && w.Some? {
      match op
      case And => SameLongs(v.value, w.value);
      case Or => SameLongs(v.value, w.value);
      case Xor => SameLongs(v.value, w.value);
      case Plus => BecomesOne(a + b, v.value, w.value);
      case Minus => BecomesOne(a - b, v.value, w.value);
      case Mul => BecomesOne(a * b, v.value, w.value);
      case Div => DivOne(a, b, v.value, w.value);
      case Mod =>
        var q :| Quotient(a, b, q, v.value);
        var q1 :| Quotient(a, b, q1, w.value);
        QuotientOne(a, b, q, v.value, q1, w.value);
      case Shl => BecomesOne(a * TwoTo(b), v.value, w.value);
      case Shr => ShiftedOne(a, TwoTo(b), v.value, w.value);
      case Shra =>
        var r :| Quotient(a, TwoTo(b), v.value, r);
        var r1 :| Quotient(a, TwoTo(b), w.value, r1);
        QuotientOne(a, TwoTo(b), v.value, r, w.value, r1);
      case _ =>
    }
  }

  lemma DivOne(a: int, b: int, v: int, w: int)
    requires exists q, r :: Quotient(a, b, q, r) && Becomes(q, v)
    requires exists q, r :: Quotient(a, b, q, r) && Becomes(q, w)
    ensures v == w
  {
    hide Quotient, Becomes;
    var q, r :| Quotient(a, b, q, r) && Becomes(q, v);
    var q1, r1 :| Quotient(a, b, q1, r1) && Becomes(q1, w);
    QuotientOne(a, b, q, r, q1, r1);
    BecomesOne(q, v, w);
  }

  lemma UnaryOne(u: UnaryOp, x: int, v: int, w: int)
    requires UnaryMeans(u, x, v) && UnaryMeans(u, x, w)
    ensures v == w
  {
    hide Bit, Becomes, IsLong;
    match u
    case Abs => BecomesOne(Size(x), v, w);
    case Negate => BecomesOne(-x, v, w);
    case Not => SameLongs(v, w);
  }

  lemma CutApart(n: nat, bits: nat, u: int, w: int)
    requires Cut(n, bits, u) && Cut(n, bits, w) && 0 < u - w + TwoTo(bits) < 2 * TwoTo(bits)
    ensures u == w
  {
    hide TwoTo;
    var k :| n - u == k * TwoTo(bits);
    var j :| n - w == j * TwoTo(bits);
    hide *;
    MultiplesApart(n - u, n - w, k, j, TwoTo(bits));
  }

  lemma MultiplesApart(x: int, y: int, k: int, j: int, p: nat)
    requires x == k * p && y == j * p && 0 < y - x + p < 2 * p
    ensures x == y
  {
    TimesApart(k, j, p);
    if k != j { TimesSize(k - j, p); }
  }

  lemma TimesApart(k: int, j: int, p: int)
    ensures (k - j) * p == k * p - j * p
  {
  }

  lemma RegisterOne(r: nat, env: Env, v: int, w: int)
    requires RegisterMeans(r, env, v) && RegisterMeans(r, env, w)
    ensures v == w
  {
  }

  lemma FrameOne(o: int, env: Env, v: int, w: int)
    requires FrameMeans(o, env, v) && FrameMeans(o, env, w)
    ensures v == w
  {
  }

  lemma PushOne(op: Op, env: Env, v: int, w: int)
    requires IsPush(op) && PushMeans(op, env, v) && PushMeans(op, env, w)
    ensures v == w
  {
    hide Becomes, Cut, TwoTo, RegisterMeans, FrameMeans;
    match op
    case Addr(n) => BecomesOne(n, v, w);
    case ConstU(bits, n) =>
      var u :| 0 <= u < TwoTo(bits) && Cut(n, bits, u) && Becomes(u, v);
      var u1 :| 0 <= u1 < TwoTo(bits) && Cut(n, bits, u1) && Becomes(u1, w);
      CutApart(n, bits, u, u1);
      BecomesOne(u, v, w);
    case ConstS(bits, n) => CutApart(n, bits, v, w);
    case Lit(n) => BecomesOne(n, v, w);
    case Reg(r) => RegisterOne(r, env, v, w);
    case Breg(r, offset) =>
      var x, o :| RegisterMeans(r, env, x) && Becomes(offset, o) && Becomes(x + o, v);
      var x1, o1 :| RegisterMeans(r, env, x1) && Becomes(offset, o1) && Becomes(x1 + o1, w);
      RegisterOne(r, env, x, x1);
      BecomesOne(offset, o, o1);
      BecomesOne(x + o, v, w);
    case Fbreg(offset) =>
      var o :| Becomes(offset, o) && FrameMeans(o, env, v);
      var o1 :| Becomes(offset, o1) && FrameMeans(o1, env, w);
      BecomesOne(offset, o, o1);
      FrameOne(o, env, v, w);
  }

  // ----- trees

  ghost predicate LoadMeans(addr: int, env: Env, v: int) {
    if addr in env.mem then Becomes(env.mem[addr], v) else v == 0
  }

  /** What a binary operation comes to on what its operands stand for. */
  ghost predicate Combines(b: BinaryOp, x: Option<int>, y: Option<int>, v: Option<int>) {
    if x.Some? && y.Some? then BinaryMeans(b, x.value, y.value, v) else v.None?
  }

  /** The tree stands for `v`, or for none if an operation it runs is undefined. */
  ghost predicate Means(t: Tree, env: Env, v: Option<int>)
    requires Encodable(t)
  {
    match t
    case Leaf(op) => v.Some? && PushMeans(op, env, v.value)
    case Un(u, t1) => exists x :: Means(t1, env, x) && if x.None? then v.None? else v.Some? && UnaryMeans(u, x.value, v.value)
    case Add(t1, n) => exists x :: Means(t1, env, x) && if x.None? then v.None? else v.Some? && Becomes(x.value + n, v.value)
    case Bin(b, l, r) => exists x, y :: Means(l, env, x) && Means(r, env, y) && Combines(b, x, y, v)
    case Fetch(t1) => exists x :: Means(t1, env, x) && if x.None? then v.None? else v.Some? && LoadMeans(x.value, env, v.value)
    case Cond(c, yes, no) => exists x :: Means(c, env, x) && if x.None? then v.None? else if x.value == 0 then Means(no, env, v) else Means(yes, env, v)
  }

  lemma PushIsLong(op: Op, env: Env)
    requires IsPush(op)
    ensures IsLong(PushValue(op, env))
  {
    hide SignExtend, TwoTo;
    match op
    case ConstS(bits, n) => SignExtendLong(n, bits);
    case Fbreg(offset) =>
    case _ =>
  }

  lemma BinaryIsLong(b: BinaryOp, x: int, y: int)
    requires IsLong(x) && IsLong(y) && ApplyBinary(b, x, y).Some?
    ensures IsLong(ApplyBinary(b, x, y).value)
  {
    if b.And? || b.Or? || b.Xor? { BitwiseMeans(b, x, y); }
    else if b.Shr? { FloorIs(x, TwoTo(y)); ShrinksToLong(x, TwoTo(y)); }
    else if b.Shra? { TruncShrinks(x, TwoTo(y)); }
  }

  lemma ShrinksToLong(a: int, p: nat)
    requires p > 0 && IsLong(a)
    ensures IsLong(a / p)
  {
    DivBounds(a, p);
    if a < 0 { NegativeShrinks(a, p); }
  }

  lemma NegativeShrinks(a: int, p: nat)
    requires a < 0 && p > 0
    ensures a <= a / p
  {
    var q, r := a / p, a % p;
    Divided(a, p);
    if q < a {
      TimesApart(q, a, p);
      Times(q - a, p);
      OneMoreTime(p - 1, a);
      Signs(p - 1, a);
    }
  }

  lemma TruncShrinks(a: int, p: nat)
    requires p > 0 && IsLong(a)
    ensures IsLong(TruncDiv(a, p))
  {
    if a >= 0 { DivBounds(a, p); } else { DivBounds(-a, p); }
  }

  lemma {:induction false} ValueIsLong(t: Tree, env: Env)
    requires Encodable(t) && Value(t, env).Some?
    ensures IsLong(Value(t, env).value)
  {
    hide ApplyBinary, PushValue, IsLong;
    match t
    case Leaf(op) => PushIsLong(op, env);
    case Un(u, t1) => ValueIsLong(t1, env); UnaryIsLong(u, Value(t1, env).value);
    case Add(t1, n) => WrapBecomes(Value(t1, env).value + Wrap(n)); BecomesLong(Value(t1, env).value + Wrap(n), Value(t, env).value);
    case Bin(b, l, r) => ValueIsLong(l, env); ValueIsLong(r, env); BinaryIsLong(b, Value(l, env).value, Value(r, env).value);
    case Fetch(t1) => LoadIs(Value(t1, env).value, env);
    case Cond(c, yes, no) => if Value(c, env).value != 0 { ValueIsLong(yes, env); } else { ValueIsLong(no, env); }
  }

  lemma BecomesLong(x: int, v: int)
    requires Becomes(x, v)
    ensures IsLong(v)
  {
  }

  lemma UnaryIsLong(u: UnaryOp, x: int)
    requires IsLong(x)
    ensures IsLong(ApplyUnary(u, x))
  {
  }

  lemma LoadIs(addr: int, env: Env)
    ensures LoadMeans(addr, env, Load(addr, env)) && IsLong(Load(addr, env))
  {
    if addr in env.mem { WrapBecomes(env.mem[addr]); }
  }

  lemma AddBecomes(x: int, n: nat)
    ensures Becomes(x + n, Wrap(x + Wrap(n)))
  {
  }

  lemma {:induction false} ValueMeans(t: Tree, env: Env)
    requires Encodable(t)
    ensures Means(t, env, Value(t, env))
    decreases t, 1
  {
    hide ApplyBinary, ApplyUnary, PushValue, Load, PushMeans, BinaryMeans, UnaryMeans, LoadMeans, Becomes, Wrap;
    match t
    case Leaf(op) => PushValueMeans(op, env);
    case Un(u, t1) =>
      ValueMeans(t1, env);
      if Value(t1, env).Some? { ValueIsLong(t1, env); ApplyUnaryMeans(u, Value(t1, env).value); }
    case Add(t1, n) =>
      ValueMeans(t1, env);
      if Value(t1, env).Some? { AddBecomes(Value(t1, env).value, n); }
    case Bin(b, l, r) => BinMeans(t, env);
    case Fetch(t1) =>
      ValueMeans(t1, env);
      if Value(t1, env).Some? { LoadIs(Value(t1, env).value, env); }
    case Cond(c, yes, no) =>
      ValueMeans(c, env);
      ValueMeans(yes, env);
      ValueMeans(no, env);
  }

  lemma {:induction false} BinMeans(t: Tree, env: Env)
    requires t.Bin? && Encodable(t)
    ensures Means(t, env, Value(t, env))
    decreases t, 0
  {
    hide ApplyBinary, BinaryMeans, Load, LoadMeans, PushValue, PushMeans, UnaryMeans;
    var x, y := Value(t.l, env), Value(t.r, env);
    ValueMeans(t.l, env);
    ValueMeans(t.r, env);
    if x.Some? && y.Some? {
      ValueIsLong(t.l, env);
      ValueIsLong(t.r, env);
      ApplyBinaryMeans(t.b, x.value, y.value);
    }
    assert Combines(t.b, x, y, Value(t, env));
    hide Combines, Value;
  }

  lemma LoadOne(addr: int, env: Env, v: int, w: int)
    requires LoadMeans(addr, env, v) && LoadMeans(addr, env, w)
    ensures v == w
  {
  }

  /** It stands for one value at most. */
  lemma {:induction false} MeansOne(t: Tree, env: Env, v: Option<int>, w: Option<int>)
    requires Encodable(t) && Means(t, env, v) && Means(t, env, w)
    ensures v == w
    decreases t, 1
  {
    hide PushMeans, BinaryMeans, UnaryMeans, LoadMeans, Becomes;
    match t
    case Leaf(op) => PushOne(op, env, v.value, w.value);
    case Bin(_, _, _) => BinOne(t, env, v, w);
    case Cond(_, _, _) => CondOne(t, env, v, w);
    case Un(u, t1) =>
      var x :| Means(t1, env, x) && if x.None? then v.None? else v.Some? && UnaryMeans(u, x.value, v.value);
      var y :| Means(t1, env, y) && if y.None? then w.None? else w.Some? && UnaryMeans(u, y.value, w.value);
      MeansOne(t1, env, x, y);
      if x.Some? { UnaryOne(u, x.value, v.value, w.value); }
    case Add(t1, n) =>
      var x :| Means(t1, env, x) && if x.None? then v.None? else v.Some? && Becomes(x.value + n, v.value);
      var y :| Means(t1, env, y) && if y.None? then w.None? else w.Some? && Becomes(y.value + n, w.value);
      MeansOne(t1, env, x, y);
      if x.Some? { BecomesOne(x.value + n, v.value, w.value); }
    case Fetch(t1) =>
      var x :| Means(t1, env, x) && if x.None? then v.None? else v.Some? && LoadMeans(x.value, env, v.value);
      var y :| Means(t1, env, y) && if y.None? then w.None? else w.Some? && LoadMeans(y.value, env, w.value);
      MeansOne(t1, env, x, y);
      if x.Some? { LoadOne(x.value, env, v.value, w.value); }
  }

  lemma {:induction false} BinOne(t: Tree, env: Env, v: Option<int>, w: Option<int>)
    requires t.Bin? && Encodable(t) && Means(t, env, v) && Means(t, env, w)
    ensures v == w
    decreases t, 0
  {
    hide BinaryMeans;
    var x, y :| Means(t.l, env, x) && Means(t.r, env, y) && Combines(t.b, x, y, v);
    var x1, y1 :| Means(t.l, env, x1) && Means(t.r, env, y1) && Combines(t.b, x1, y1, w);
    hide Means;
    MeansOne(t.l, env, x, x1);
    MeansOne(t.r, env, y, y1);
    if x.Some? && y.Some? { BinaryOne(t.b, x.value, y.value, v, w); }
  }

  lemma {:induction false} CondOne(t: Tree, env: Env, v: Option<int>, w: Option<int>)
    requires t.Cond? && Encodable(t) && Means(t, env, v) && Means(t, env, w)
    ensures v == w
    decreases t, 0
  {
    var x :| Means(t.c, env, x) && if x.None? then v.None? else if x.value == 0 then Means(t.no, env, v) else Means(t.yes, env, v);
    var y :| Means(t.c, env, y) && if y.None? then w.None? else if y.value == 0 then Means(t.no, env, w) else Means(t.yes, env, w);
    hide Means;
    MeansOne(t.c, env, x, y);
    if x.Some? { if x.value == 0 { MeansOne(t.no, env, v, w); } else { MeansOne(t.yes, env, v, w); } }
  }

  // ----- one operation on the stack

  /** The entries an operation looks at, the bottom slot included. */
  function Takes(op: Op): nat {
    match op
    case Over => 2
    case Swap => 2
    case Rot => 3
    case Binary(_) => 2
    case Pick(depth) => depth % 256 + 1
    case Drop => 2
    case _ => 1
  }

  predicate Copies(st: seq<int>, st': seq<int>, depth: nat)
    requires depth < |st|
  {
    st' == st + [st[|st| - 1 - depth]]
  }

  /** The stack, its top last, before and after. `rot` takes the top below the next two. */
  ghost predicate StackMeans(op: Op, env: Env, st: seq<int>, st': seq<int>)
    requires Takes(op) <= |st|
  {
    var n := |st|;
    match op
    case Dup => Copies(st, st', 0)
    case Over => Copies(st, st', 1)
    case Pick(depth) => Copies(st, st', depth % 256)
    case Drop => st' == st[..n - 1]
    case Swap => st' == st[..n - 2] + [st[n - 1], st[n - 2]]
    case Rot => st' == st[..n - 3] + [st[n - 1], st[n - 3], st[n - 2]]
    case Unary(u) => exists v :: UnaryMeans(u, st[n - 1], v) && st' == st[..n - 1] + [v]
    case Binary(b) => exists v :: BinaryMeans(b, st[n - 2], st[n - 1], Some(v)) && st' == st[..n - 2] + [v]
    case PlusUconst(k) => exists v :: Becomes(st[n - 1] + k, v) && st' == st[..n - 1] + [v]
    case Deref => exists v :: LoadMeans(st[n - 1], env, v) && st' == st + [v]
    case DerefSize(bytes) =>
      if 1 <= bytes % 256 <= 8 then exists x, v :: LoadMeans(st[n - 1], env, x) && LowBytes(x, bytes % 256, v) && st' == st + [v]
      else st' == st
    case Bra(_) => st' == st
    case Jump(_) => st' == st
    case StackValue => st' == st
    case Nop => st' == st
    case _ => exists v :: PushMeans(op, env, v) && st' == st + [v]
  }

  /** The low bytes of a long, zeros above them; all eight are the long. */
  ghost predicate LowBytes(x: int, bytes: nat, v: int) {
    if bytes >= 8 then v == x else 0 <= v < TwoTo(8 * bytes) && exists k: int :: x - v == k * TwoTo(8 * bytes)
  }

  predicate AllLong(st: seq<int>) {
    forall i :: 0 <= i < |st| ==> IsLong(st[i])
  }

  lemma LowBytesIs(x: int, bytes: nat)
    requires 1 <= bytes < 8
    ensures LowBytes(x, bytes, x % TwoTo(8 * bytes))
  {
    hide TwoTo;
    Divided(x, TwoTo(8 * bytes));
  }

  lemma LastOf(st: seq<int>)
    requires st != []
    ensures st == st[..|st| - 1] + [st[|st| - 1]]
  {
  }

  lemma LastTwoOf(st: seq<int>)
    requires |st| >= 2
    ensures st == st[..|st| - 2] + [st[|st| - 2]] + [st[|st| - 1]]
  {
  }

  lemma CopyMeans(s: Slots, st: seq<int>, text: nat, depth: nat)
    requires Holds(s, st, text) && depth < |st|
    ensures match PushCopy(s, depth)
      case Bad => |st| == SLOTS
      case Good(s1) => Holds(s1, st + [st[|st| - 1 - depth]], text)
  {
    assert s.cells[..|st|][|st| - 1 - depth] == s.cells[s.Index(depth)];
    hide Push;
    PushHolds(s, st, text, s.Get(depth));
  }

  lemma RotMeans(s: Slots, st: seq<int>, text: nat)
    requires Holds(s, st, text) && |st| >= 3
    ensures ExecRot(s).Good? && Holds(ExecRot(s).s, st[..|st| - 3] + [st[|st| - 1], st[|st| - 3], st[|st| - 2]], text)
  {
    var n := |st|;
    assert s.Index(0) == n - 1 && s.Index(1) == n - 2 && s.Index(2) == n - 3;
    assert forall i :: 0 <= i < n ==> s.cells[i] == s.cells[..n][i] == st[i];
    var s1 := ExecRot(s).s;
    assert s1.cells[..n] == st[..n - 3] + [st[n - 1], st[n - 3], st[n - 2]];
  }

  predicate Grows(op: Op) {
    IsPush(op) || op.Dup? || op.Over? || op.Pick? || op.Deref? || op.DerefSize?
  }

  /** Where an operation leads, or why it does not. */
  ghost predicate ExecAs(e: Effect, op: Op, env: Env, st: seq<int>, text: nat)
    requires Takes(op) <= |st|
  {
    match e
    case Good(s1) => exists st' :: Holds(s1, st', text) && StackMeans(op, env, st, st')
    case Bad => (Grows(op) && |st| == 512) || (op.Binary? && BinaryMeans(op.b, st[|st| - 2], st[|st| - 1], None))
  }

  lemma ExecTop(op: Op, s: Slots, st: seq<int>, text: nat, env: Env)
    requires Holds(s, st, text) && AllLong(st) && st != [] && (op.Unary? || op.PlusUconst?)
    ensures ExecAs(Exec(op, s, env), op, env, st, text)
  {
    hide ApplyUnary, Wrap, UnaryMeans, Becomes;
    var base, x := st[..|st| - 1], st[|st| - 1];
    LastOf(st);
    TopHolds(s, base, text, x);
    match op
    case Unary(u) =>
      ApplyUnaryMeans(u, x);
      SetHolds(s, base, text, x, ApplyUnary(u, x));
    case PlusUconst(k) =>
      AddBecomes(x, k);
      SetHolds(s, base, text, x, Wrap(x + Wrap(k)));
  }

  lemma ExecPair(op: Op, s: Slots, st: seq<int>, text: nat, env: Env)
    requires Holds(s, st, text) && AllLong(st) && |st| >= 2 && (op.Binary? || op.Swap? || op.Drop?)
    ensures ExecAs(Exec(op, s, env), op, env, st, text)
  {
    hide ApplyBinary, BinaryMeans, ExecSwap, ExecBinary;
    var base, x, y := st[..|st| - 2], st[|st| - 2], st[|st| - 1];
    LastTwoOf(st);
    match op
    case Binary(b) =>
      ApplyBinaryMeans(b, x, y);
      BinaryHolds(s, base, text, b, x, y);
    case Swap =>
      SwapHolds(s, base, text, x, y);
      assert base + [y] + [x] == base + [y, x];
    case Drop =>
      assert st[..|st| - 1] == base + [x];
      DropHolds(s, base + [x], text, y);
  }

  lemma ExecDeref8(bytes: nat, s: Slots, st: seq<int>, text: nat, env: Env)
    requires Holds(s, st, text) && st != [] && bytes < 256
    ensures match ExecDeref(s, bytes, env)
      case Good(s1) =>
        if 1 <= bytes <= 8 then exists x, v :: LoadMeans(st[|st| - 1], env, x) && LowBytes(x, bytes, v) && Holds(s1, st + [v], text)
        else Holds(s1, st, text)
      case Bad => |st| == SLOTS
  {
    var a := st[|st| - 1];
    LastOf(st);
    TopHolds(s, st[..|st| - 1], text, a);
    LoadIs(a, env);
    hide Load, LoadMeans, TwoTo, LowBytes, Push, Holds;
    var x := Load(a, env);
    if 1 <= bytes < 8 {
      LowBytesIs(x, bytes);
      PushHolds(s, st, text, x % TwoTo(8 * bytes));
    } else if bytes == 8 {
      AllBytes(x);
      PushHolds(s, st, text, x);
    }
    NotOver(s, st, text);
  }

  lemma NotOver(s: Slots, st: seq<int>, text: nat)
    requires Holds(s, st, text)
    ensures |st| <= SLOTS
  {
  }

  lemma AllBytes(x: int)
    ensures LowBytes(x, 8, x)
  {
  }

  lemma ExecCopy(op: Op, s: Slots, st: seq<int>, text: nat, env: Env)
    requires Holds(s, st, text) && Takes(op) <= |st| && (op.Dup? || op.Over? || op.Pick?)
    ensures ExecAs(Exec(op, s, env), op, env, st, text)
  {
    CopyMeans(s, st, text, if op.Dup? then 0 else if op.Over? then 1 else op.depth % 256);
    hide PushCopy, Holds;
  }

  lemma ExecFetch(op: Op, s: Slots, st: seq<int>, text: nat, env: Env)
    requires Holds(s, st, text) && st != [] && (op.Deref? || op.DerefSize?)
    ensures ExecAs(Exec(op, s, env), op, env, st, text)
  {
    ExecDeref8(if op.Deref? then 8 else op.bytes % 256, s, st, text, env);
    WholeDeref(s, st, text, env);
    hide ExecDeref, LoadMeans, LowBytes, Holds;
  }

  lemma ExecPush(op: Op, s: Slots, st: seq<int>, text: nat, env: Env)
    requires Holds(s, st, text) && st != [] && IsPush(op)
    ensures ExecAs(Exec(op, s, env), op, env, st, text)
  {
    PushValueMeans(op, env);
    PushHolds(s, st, text, PushValue(op, env));
    NotOver(s, st, text);
    hide Push, PushValue, PushMeans, Holds;
  }

  /** Every operation that does not jump does on the slots what it means on the stack, unless there is no
      room for another entry or the result is undefined. */
  lemma ExecMeans(op: Op, s: Slots, st: seq<int>, text: nat, env: Env)
    requires Holds(s, st, text) && AllLong(st) && Takes(op) <= |st|
    ensures ExecAs(Exec(op, s, env), op, env, st, text)
  {
    if op.Unary? || op.PlusUconst? { ExecTop(op, s, st, text, env); }
    else if op.Binary? || op.Swap? || op.Drop? { ExecPair(op, s, st, text, env); }
    else if op.Dup? || op.Over? || op.Pick? { ExecCopy(op, s, st, text, env); }
    else if op.Deref? || op.DerefSize? { ExecFetch(op, s, st, text, env); }
    else if IsPush(op) { ExecPush(op, s, st, text, env); }
    else if op.Rot? { RotMeans(s, st, text); }
  }

  lemma WholeDeref(s: Slots, st: seq<int>, text: nat, env: Env)
    requires st != []
    ensures forall x, v :: LoadMeans(st[|st| - 1], env, x) && LowBytes(x, 8, v) ==> LoadMeans(st[|st| - 1], env, v)
  {
  }

  // ----- what an operation writes

  /** The names of the operations behind "DW_OP_". */
  function Mnemonic(code: nat): string {
    match code
    case 0x06 => "deref" case 0x12 => "dup" case 0x13 => "drop" case 0x14 => "over" case 0x15 => "pick"
    case 0x16 => "swap" case 0x17 => "rot" case 0x19 => "abs" case 0x1a => "and" case 0x1b => "div"
    case 0x1c => "minus" case 0x1d => "mod" case 0x1e => "mul" case 0x1f => "neg" case 0x20 => "not"
    case 0x21 => "or" case 0x22 => "plus" case 0x23 => "plus_uconst" case 0x24 => "shl" case 0x25 => "shr"
    case 0x26 => "shra" case 0x27 => "xor" case 0x28 => "bra" case 0x29 => "eq" case 0x2a => "ge"
    case 0x2b => "gt" case 0x2c => "le" case 0x2d => "lt" case 0x2e => "ne" case 0x94 => "deref_size"
    case _ => ""
  }

  function DecimalText(n: nat): (s: string)
    ensures |s| == Digits(n)
  {
    if n < 10 then ["0123456789"[n]] else DecimalText(n / 10) + ["0123456789"[n % 10]]
  }

  function HexadecimalText(n: nat): (s: string)
    ensures |s| == HexDigits(n)
  {
    if n < 16 then ["0123456789abcdef"[n]] else HexadecimalText(n / 16) + ["0123456789abcdef"[n % 16]]
  }

  function SignedText(x: int): string {
    if x < 0 then "-" + DecimalText(-x) else DecimalText(x)
  }

  function OffsetText(x: int): string {
    if x < 0 then "-" + DecimalText(-x) else "+" + DecimalText(x)
  }

  function RegisterText(r: nat): string {
    var n := r % 0x10000;
    if n < 29 then "$x" + DecimalText(n) else if n == 29 then "$fp" else if n == 30 then "$lr" else if n == 31 then "$sp" else ""
  }

  /** Some operations with a name write it, some their operand, some both. */
  function Printed(op: Op, env: Env): string {
    match op
    case Addr(n) => if n % 0x1_0000_0000_0000_0000 == 0 then "0" else "0x" + HexadecimalText(n % 0x1_0000_0000_0000_0000)
    case ConstU(bits, n) => SignedText(if bits < 32 then n % TwoTo(bits) else SignExtend(n, bits))
    case ConstS(bits, n) => SignedText(SignExtend(n, bits))
    case Lit(_) => ""
    case Reg(r) => RegisterText(r)
    case Breg(r, offset) => RegisterText(r) + OffsetText(Wrap(offset))
    case Fbreg(offset) => (match env.frame case None => "(null)" case Some(r) => RegisterText(r)) + OffsetText(Wrap(offset))
    case Deref => " DW_OP_" + Mnemonic(0x06)
    case DerefSize(bytes) => "DW_OP_" + Mnemonic(0x94) + " " + SignedText(bytes % 256)
    case Dup => "DW_OP_" + Mnemonic(0x12)
    case Drop => "DW_OP_" + Mnemonic(0x13)
    case Over => "DW_OP_" + Mnemonic(0x14)
    case Pick(depth) => "DW_OP_" + Mnemonic(0x15) + SignedText(depth % 256)
    case Swap => "DW_OP_" + Mnemonic(0x16)
    case Rot => "DW_OP_" + Mnemonic(0x17)
    case Unary(u) => "DW_OP_" + Mnemonic(match u case Abs => 0x19 case Negate => 0x1f case Not => 0x20)
    case Binary(b) => "DW_OP_" + Mnemonic(BinaryCode(b))
    case PlusUconst(n) => "DW_OP_" + Mnemonic(0x23) + " " + SignedText(Wrap(n))
    case Bra(skip) => "DW_OP_" + Mnemonic(0x28) + " " + SignedText(skip)
    case Jump(_) => ""
    case StackValue => ""
    case Nop => ""
  }

  lemma ArithmeticNames(b: BinaryOp)
    requires b.And? || b.Div? || b.Minus? || b.Mod? || b.Mul? || b.Or? || b.Plus?
    ensures "DW_OP_" + Mnemonic(BinaryCode(b)) == BinaryName(b)
  {
  }

  lemma ShiftNames(b: BinaryOp)
    requires b.Shl? || b.Shr? || b.Shra? || b.Xor?
    ensures "DW_OP_" + Mnemonic(BinaryCode(b)) == BinaryName(b)
  {
  }

  lemma ComparisonNames(b: BinaryOp)
    requires b.Eq? || b.Ge? || b.Gt? || b.Le? || b.Lt? || b.Ne?
    ensures "DW_OP_" + Mnemonic(BinaryCode(b)) == BinaryName(b)
  {
  }

  lemma UnaryNames(u: UnaryOp)
    ensures "DW_OP_" + Mnemonic(match u case Abs => 0x19 case Negate => 0x1f case Not => 0x20) == UnaryName(u)
  {
  }

  lemma PushCounts(op: Op, env: Env)
    requires IsPush(op)
    ensures Text(op, env) == |Printed(op, env)|
  {
    hide DecimalText, HexadecimalText, Digits, HexDigits, SignExtend, TwoTo, Wrap, RegisterText, RegisterName;
    match op
    case Reg(r) => RegisterCounts(r);
    case Breg(r, _) => RegisterCounts(r);
    case Fbreg(_) => if env.frame.Some? { RegisterCounts(env.frame.value); }
    case _ =>
  }

  lemma StackCounts(op: Op, env: Env)
    requires !IsPush(op) && !op.Binary? && !op.Unary?
    ensures Text(op, env) == |Printed(op, env)|
  {
    hide DecimalText, Digits, Wrap;
  }

  /** The machine counts the characters of what is written. */
  lemma TextCounts(op: Op, env: Env)
    ensures Text(op, env) == |Printed(op, env)|
  {
    if IsPush(op) { PushCounts(op, env); }
    else if op.Unary? { UnaryNames(op.u); }
    else if op.Binary? {
      var b := op.b;
      if b.Eq? || b.Ge? || b.Gt? || b.Le? || b.Lt? || b.Ne? { ComparisonNames(b); }
      else if b.Shl? || b.Shr? || b.Shra? || b.Xor? { ShiftNames(b); }
      else { ArithmeticNames(b); }
      hide Mnemonic, BinaryCode, BinaryName;
    }
    else { StackCounts(op, env); }
  }

  lemma RegisterCounts(r: nat)
    ensures RegisterName(r) == |RegisterText(r)|
  {
    var n := r % 0x10000;
    if n < 10 { assert Digits(n) == 1; } else if n < 29 { assert Digits(n / 10) == 1; }
  }

  // ----- decoding encoded trees

  /** One operation as it stands in a description. */
  datatype Raw = Raw(code: nat, opd1: nat, opd2: nat)

  function Dispatched(raw: seq<Raw>): seq<Op> {
    seq(|raw|, i requires 0 <= i < |raw| => OpOf(raw[i].code, raw[i].opd1, raw[i].opd2))
  }

  ghost predicate Encoding(raw: seq<Raw>, ops: seq<Op>) {
    |raw| == |ops| && forall i :: 0 <= i < |raw| ==> Encodes(ops[i], raw[i].code, raw[i].opd1, raw[i].opd2)
  }

  lemma DispatchDecodes(raw: seq<Raw>, ops: seq<Op>)
    requires Encoding(raw, ops)
    ensures Dispatched(raw) == ops
  {
    forall i | 0 <= i < |raw| ensures Dispatched(raw)[i] == ops[i] {
      assert ops[i] != Nop;
      OpOfIff(raw[i].code, raw[i].opd1, raw[i].opd2, ops[i]);
    }
    hide OpOf;
  }

  /** Decoding any encoding of a tree's code yields what the tree stands for, exactly if that is defined
      and the text of the operations run fits the buffer. */
  lemma EncodedDecodes(t: Tree, raw: seq<Raw>, env: Env)
    requires Encodable(t) && Encoding(raw, Code(t))
    ensures var m := Steps(Dispatched(raw), Start(), env, Cost(t, env) + 1);
      && (forall x :: m == Done(x) <==> Means(t, env, Some(x)) && Written(t, env) < 1024)
      && (m == Fault <==> Means(t, env, None) || Written(t, env) >= 1024)
  {
    hide Steps, Value, Cost, Code, Written, Means, Encoding, Dispatched;
    DispatchDecodes(raw, Code(t));
    DecodeComputes(t, env);
    ValueMeans(t, env);
    forall v | Means(t, env, v) ensures v == Value(t, env) { MeansOne(t, env, v, Value(t, env)); }
    assert forall x :: Means(t, env, Some(x)) ==> Value(t, env) == Some(x);
  }
}
