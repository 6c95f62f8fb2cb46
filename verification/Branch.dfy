/** Decoding A64 branch words (`disas/branch.c`), against the encodings of section C4.1 of
    the Arm Architecture Reference Manual (DDI 0487). */
module Branch {
  type Opcode = bv32

  datatype Kind = CondImmediate | UncondRegister | UncondImmediate | CompareImmediate | TestImmediate | UnknownKind

  /** EQ .. AL by number; 15 stands for UNKNOWN_COND. */
  const AL: bv32 := 14
  const UNKNOWN_COND: bv32 := 15

  const X30: bv32 := 30
  /** The 65th register name: no register. */
  const NO_REG: bv32 := 64
  const INT_MAX: bv32 := 0x7fffffff

  datatype Info = Info(kind: Kind, isCall: bool, conditional: bool, cond: bv32, imm: bv32, rn: bv32)

  function SignExtend(number: bv32, numbits: nat): bv32
    requires 1 <= numbits < 32
  {
    if number & (1 << (numbits - 1)) != 0 then number | !((1 << numbits) - 1) else number
  }

  function FigureKind(opcode: Opcode): Kind {
    var op0 := opcode >> 29;
    var op1 := (opcode & 0x3fff000) >> 25;
    if op0 & 3 == 0 then UncondImmediate
    else if op1 == 1 then
      if op0 == 6 then UncondRegister else if op0 & 3 == 1 then TestImmediate else UnknownKind
    else
      if op0 == 2 then CondImmediate else if op0 & 3 == 1 then CompareImmediate else UnknownKind
  }

  /** The condition number; both 0b1110 and 0b1111 read as AL. */
  function FigureCond(opcode: Opcode): bv32 {
    if opcode & 0xf == 15 then AL else opcode & 0xf
  }

  predicate Recognised(opcode: Opcode) {
    (opcode << 3) >> 29 == 5 && FigureKind(opcode) != UnknownKind
  }

  // ----- the fields of a word

  function Imm19(opcode: Opcode): bv32 {
    SignExtend(((opcode & 0xffffe0) >> 5) << 2, 21)
  }

  function Imm26(opcode: Opcode): bv32 {
    SignExtend((opcode & 0x3ffffff) << 2, 28)
  }

  /** The mask keeps 9 of the field's 14 bits. */
  function Imm14(opcode: Opcode): bv32 {
    SignExtend(((opcode & 0x3fff) >> 5) << 2, 16)
  }

  function Rn(opcode: Opcode): bv32 {
    (opcode & 0x3e0) >> 5
  }

  /** The registers from 32 on are the narrow ones. */
  function Rt(opcode: Opcode): bv32 {
    (opcode & 0x1f) + (if opcode >> 31 == 0 then 32 else 0)
  }

  predicate LinkBit(opcode: Opcode) {
    opcode >> 31 == 1
  }

  predicate LinksRegister(opcode: Opcode) {
    (opcode >> 21) & 0xf == 1 || (opcode >> 21) & 0xf == 9
  }

  /** What `is_branch` reports about a word it recognises. */
  function Decode(opcode: Opcode): Info
    requires Recognised(opcode)
  {
    var kind := FigureKind(opcode);
    Info(kind,
         match kind
           case UncondImmediate => LinkBit(opcode)
           case UncondRegister => LinksRegister(opcode)
           case _ => false,
         kind.CondImmediate?,
         if kind.CondImmediate? then FigureCond(opcode) else UNKNOWN_COND,
         match kind
           case CondImmediate => Imm19(opcode)
           case CompareImmediate => Imm19(opcode)
           case UncondImmediate => Imm26(opcode)
           case TestImmediate => Imm14(opcode)
           case _ => INT_MAX,
         match kind
           case UncondRegister => Rn(opcode)
           case CompareImmediate => Rt(opcode)
           case TestImmediate => Rt(opcode)
           case _ => NO_REG)
  }

  /** The record `is_branch` fills in. */
  class BranchInfo {
    var kind: Kind
    var isCall: bool
    var conditional: bool
    var cond: bv32
    var imm: bv32
    var rn: bv32

    constructor ()
      ensures !isCall && rn == 0
    {
      kind, isCall, conditional, cond, imm, rn := CondImmediate, false, false, 0, 0, 0;
    }

    function Value(): Info
      reads this
    {
      Info(kind, isCall, conditional, cond, imm, rn)
    }

    method IsBranch(opcode: Opcode) returns (branch: bool)
      modifies this
      ensures branch == Recognised(opcode)
      ensures branch ==> Value() == Decode(opcode)
    {
      if (opcode << 3) >> 29 != 5 { return false; }
      hide FigureKind, FigureCond, Imm19, Imm26, Imm14, Rn, Rt, LinkBit, LinksRegister;
      kind := FigureKind(opcode);
      if kind == UnknownKind { return false; }
      isCall, conditional, cond := false, false, UNKNOWN_COND;
      if kind == CondImmediate {
        conditional := true;
        cond := FigureCond(opcode);
      }
      imm := INT_MAX;
      if kind == CondImmediate || kind == CompareImmediate {
        imm := Imm19(opcode);
      } else if kind == UncondImmediate {
        imm := Imm26(opcode);
        isCall := LinkBit(opcode);
      } else if kind == TestImmediate {
        imm := Imm14(opcode);
      }
      if kind == UncondRegister {
        if LinksRegister(opcode) { isCall := true; }
      }
      rn := NO_REG;
      if kind == UncondRegister {
        rn := Rn(opcode);
      } else if kind == CompareImmediate || kind == TestImmediate {
        rn := Rt(opcode);
      }
      return true;
    }
  }

  // ----- the architecture's encodings

  /** `offset` is a multiple of four that fits `bits` bits as a signed number. */
  predicate Reachable(offset: bv32, bits: nat)
    requires 1 <= bits < 32
  {
    offset & 3 == 0 && SignExtend(offset & ((1 << bits) - 1), bits) == offset
  }

  function EncodeB(link: bool, offset: bv32): Opcode {
    (if link then 0x94000000 else 0x14000000) | ((offset >> 2) & 0x3ffffff)
  }

  function EncodeBCond(cond: bv32, offset: bv32): Opcode {
    0x54000000 | (((offset >> 2) & 0x7ffff) << 5) | (cond & 0xf)
  }

  function EncodeCompare(wide: bool, nonzero: bool, reg: bv32, offset: bv32): Opcode {
    (if wide then 0xb4000000 else 0x34000000) | (if nonzero then 0x01000000 else 0) | (((offset >> 2) & 0x7ffff) << 5) | (reg & 0x1f)
  }

  function EncodeTest(wide: bool, nonzero: bool, bit: bv32, reg: bv32, offset: bv32): Opcode {
    (if wide then 0xb6000000 else 0x36000000) | (if nonzero then 0x01000000 else 0) | ((bit & 0x1f) << 19) | (((offset >> 2) & 0x3fff) << 5) | (reg & 0x1f)
  }

  lemma BKind(link: bool, offset: bv32)
    ensures var word := EncodeB(link, offset);
      (word << 3) >> 29 == 5 && FigureKind(word) == UncondImmediate && LinkBit(word) == link
  {
  }

  lemma BField(link: bool, offset: bv32)
    ensures EncodeB(link, offset) & 0x3ffffff == (offset >> 2) & 0x3ffffff
  {
  }

  lemma BOffset(offset: bv32)
    requires Reachable(offset, 28)
    ensures SignExtend(((offset >> 2) & 0x3ffffff) << 2, 28) == offset
  {
  }

  lemma DecodeB(link: bool, offset: bv32)
    requires Reachable(offset, 28)
    ensures Recognised(EncodeB(link, offset))
    ensures Decode(EncodeB(link, offset)) == Info(UncondImmediate, link, false, UNKNOWN_COND, offset, NO_REG)
  {
    BKind(link, offset);
    BField(link, offset);
    BOffset(offset);
    hide EncodeB, SignExtend, Reachable;
    assert Imm26(EncodeB(link, offset)) == offset;
    hide FigureKind, FigureCond, Imm19, Imm26, Imm14, Rn, Rt, LinkBit, LinksRegister;
  }

  lemma BCondKind(cond: bv32, offset: bv32)
    requires cond < 16
    ensures var word := EncodeBCond(cond, offset);
      (word << 3) >> 29 == 5 && FigureKind(word) == CondImmediate && FigureCond(word) == if cond == 15 then 14 else cond
  {
  }

  lemma BCondField(cond: bv32, offset: bv32)
    ensures (EncodeBCond(cond, offset) & 0xffffe0) >> 5 == (offset >> 2) & 0x7ffff
  {
  }

  lemma Offset21(offset: bv32)
    requires Reachable(offset, 21)
    ensures SignExtend(((offset >> 2) & 0x7ffff) << 2, 21) == offset
  {
  }

  lemma DecodeBCond(cond: bv32, offset: bv32)
    requires Reachable(offset, 21) && cond < 16
    ensures Recognised(EncodeBCond(cond, offset))
    ensures Decode(EncodeBCond(cond, offset)) == Info(CondImmediate, false, true, if cond == 15 then 14 else cond, offset, NO_REG)
  {
    BCondKind(cond, offset);
    BCondField(cond, offset);
    Offset21(offset);
    hide EncodeBCond, SignExtend, Reachable;
    assert Imm19(EncodeBCond(cond, offset)) == offset;
    hide FigureKind, FigureCond, Imm19, Imm26, Imm14, Rn, Rt, LinkBit, LinksRegister;
  }

  lemma CompareKind(wide: bool, nonzero: bool, reg: bv32, offset: bv32)
    ensures var word := EncodeCompare(wide, nonzero, reg, offset);
      (word << 3) >> 29 == 5 && FigureKind(word) == CompareImmediate
  {
    if wide { if nonzero {} else {} } else { if nonzero {} else {} }
  }

  lemma CompareRegister(wide: bool, nonzero: bool, reg: bv32, offset: bv32)
    requires reg < 32
    ensures Rt(EncodeCompare(wide, nonzero, reg, offset)) == if wide then reg else reg + 32
  {
    if wide { if nonzero {} else {} } else { if nonzero {} else {} }
  }

  lemma CompareField(wide: bool, nonzero: bool, reg: bv32, offset: bv32)
    ensures (EncodeCompare(wide, nonzero, reg, offset) & 0xffffe0) >> 5 == (offset >> 2) & 0x7ffff
  {
    if wide { if nonzero {} else {} } else { if nonzero {} else {} }
  }

  lemma DecodeCompare(wide: bool, nonzero: bool, reg: bv32, offset: bv32)
    requires Reachable(offset, 21) && reg < 32
    ensures Recognised(EncodeCompare(wide, nonzero, reg, offset))
    ensures Decode(EncodeCompare(wide, nonzero, reg, offset))
         == Info(CompareImmediate, false, false, UNKNOWN_COND, offset, if wide then reg else reg + 32)
  {
    CompareKind(wide, nonzero, reg, offset);
    CompareRegister(wide, nonzero, reg, offset);
    CompareField(wide, nonzero, reg, offset);
    Offset21(offset);
    hide EncodeCompare, SignExtend, Reachable;
    assert Imm19(EncodeCompare(wide, nonzero, reg, offset)) == offset;
    hide FigureKind, FigureCond, Imm19, Imm26, Imm14, Rn, Rt, LinkBit, LinksRegister;
  }

  lemma TestKind(wide: bool, nonzero: bool, bit: bv32, reg: bv32, offset: bv32)
    ensures var word := EncodeTest(wide, nonzero, bit, reg, offset);
      (word << 3) >> 29 == 5 && FigureKind(word) == TestImmediate
  {
    if wide { if nonzero {} else {} } else { if nonzero {} else {} }
  }

  /** The bits of the offset field that the mask keeps. */
  lemma TestField(wide: bool, nonzero: bool, bit: bv32, reg: bv32, offset: bv32)
    ensures (EncodeTest(wide, nonzero, bit, reg, offset) & 0x3fff) >> 5 == (offset >> 2) & 0x1ff
  {
    if wide { if nonzero {} else {} } else { if nonzero {} else {} }
  }

  lemma TestOffsetIff(offset: bv32)
    requires Reachable(offset, 16)
    ensures SignExtend(((offset >> 2) & 0x1ff) << 2, 16) == offset <==> offset < 2048
  {
  }

  /** The test-and-branch immediate keeps 9 of its 14 bits, so its offset survives exactly
      when it lies in [0, 2048). */
  lemma DecodeTestIff(wide: bool, nonzero: bool, bit: bv32, reg: bv32, offset: bv32)
    requires Reachable(offset, 16) && reg < 32
    ensures Recognised(EncodeTest(wide, nonzero, bit, reg, offset))
    ensures Decode(EncodeTest(wide, nonzero, bit, reg, offset)).imm == offset <==> offset < 2048
  {
    TestKind(wide, nonzero, bit, reg, offset);
    TestField(wide, nonzero, bit, reg, offset);
    TestOffsetIff(offset);
    hide EncodeTest, SignExtend, Reachable;
    assert Imm14(EncodeTest(wide, nonzero, bit, reg, offset)) == offset <==> offset < 2048;
    hide FigureKind, FigureCond, Imm19, Imm26, Imm14, Rn, Rt, LinkBit, LinksRegister;
  }

  /** Among the branches with an immediate offset, BL alone is a call. */
  lemma CallIffBL(opcode: Opcode)
    requires Recognised(opcode) && FigureKind(opcode) != UncondRegister
    ensures Decode(opcode).isCall <==> opcode >> 26 == 0x25
  {
  }

  // ----- branches to a register

  datatype Action = Jump | Call | Return

  /** With a register; authenticated with a zero modifier; authenticated with a modifier register. A
      return takes its address from X30 when it is authenticated. */
  datatype RegisterBranch =
    | Direct(a: Action, rn: bv32)
    | Zero(a: Action, keyB: bool, rn: bv32)
    | Modified(a: Action, keyB: bool, rn: bv32, rm: bv32)
    | ReturnAuthenticated(keyB: bool)

  predicate Encodable(b: RegisterBranch) {
    match b
    case Direct(_, rn) => rn < 32
    case Zero(a, _, rn) => a != Return && rn < 32
    case Modified(a, _, rn, rm) => a != Return && rn < 32 && rm < 32
    case ReturnAuthenticated(_) => true
  }

  function Key(keyB: bool): bv32 {
    if keyB then 0x400 else 0
  }

  function EncodeRegister(b: RegisterBranch): Opcode {
    match b
    case Direct(a, rn) => (match a case Jump => 0xd61f0000 case Call => 0xd63f0000 case Return => 0xd65f0000) | (rn << 5)
    case Zero(a, keyB, rn) => (if a == Call then 0xd63f081f else 0xd61f081f) | Key(keyB) | (rn << 5)
    case Modified(a, keyB, rn, rm) => (if a == Call then 0xd73f0800 else 0xd71f0800) | Key(keyB) | (rn << 5) | rm
    case ReturnAuthenticated(keyB) => 0xd65f0bff | Key(keyB)
  }

  function RegisterOf(b: RegisterBranch): bv32 {
    match b
    case Direct(_, rn) => rn
    case Zero(_, _, rn) => rn
    case Modified(_, _, rn, _) => rn
    case ReturnAuthenticated(_) => 31
  }

  predicate Calls(b: RegisterBranch) {
    !b.ReturnAuthenticated? && b.a == Call
  }

  lemma RegisterFields(b: RegisterBranch)
    requires Encodable(b)
    ensures var word := EncodeRegister(b);
      (word << 3) >> 29 == 5 && FigureKind(word) == UncondRegister && Rn(word) == RegisterOf(b) && LinksRegister(word) == Calls(b)
  {
  }

  /** Every branch to a register decodes to its register; it is a call exactly for BLR and its
      authenticated forms. */
  lemma DecodeRegister(b: RegisterBranch)
    requires Encodable(b)
    ensures Recognised(EncodeRegister(b))
    ensures Decode(EncodeRegister(b)) == Info(UncondRegister, Calls(b), false, 15, 0x7fffffff, RegisterOf(b))
  {
    RegisterFields(b);
    hide EncodeRegister, FigureKind, FigureCond, Imm19, Imm26, Imm14, Rn, Rt, LinkBit, LinksRegister;
  }

  /** The kinds by the word's highest byte; no other word is taken for a branch. */
  lemma KindByByte(opcode: Opcode)
    ensures var top := opcode >> 24;
      && (Recognised(opcode) && FigureKind(opcode) == UncondImmediate <==> 0x14 <= top <= 0x17 || 0x94 <= top <= 0x97)
      && (Recognised(opcode) && FigureKind(opcode) == CondImmediate <==> top == 0x54 || top == 0x55)
      && (Recognised(opcode) && FigureKind(opcode) == CompareImmediate <==> top == 0x34 || top == 0x35 || top == 0xb4 || top == 0xb5)
      && (Recognised(opcode) && FigureKind(opcode) == TestImmediate <==> top == 0x36 || top == 0x37 || top == 0xb6 || top == 0xb7)
      && (Recognised(opcode) && FigureKind(opcode) == UncondRegister <==> top == 0xd6 || top == 0xd7)
  {
  }

  /** What stepping over takes for a call: BL, or a call through a register other than X30. */
  predicate CallWord(opcode: Opcode) {
    opcode >> 26 == 0x25 || (opcode >> 25 == 0x6b && (opcode >> 21) & 7 == 1 && (opcode >> 5) & 0x1f != 30)
  }

  lemma CallWordIff(opcode: Opcode)
    ensures Recognised(opcode) && Decode(opcode).isCall && Decode(opcode).rn != X30 <==> CallWord(opcode)
  {
    KindByByte(opcode);
    CallBits(opcode);
    hide FigureKind, FigureCond, Imm19, Imm26, Imm14, Rt, LinkBit, LinksRegister, Rn;
  }

  lemma CallBits(opcode: Opcode)
    ensures var top := opcode >> 24;
      && (0x14 <= top <= 0x17 || 0x94 <= top <= 0x97 ==> (LinkBit(opcode) <==> CallWord(opcode)))
      && (top == 0xd6 || top == 0xd7 ==> (LinksRegister(opcode) && Rn(opcode) != X30 <==> CallWord(opcode)))
      && (CallWord(opcode) ==> 0x94 <= top <= 0x97 || top == 0xd6 || top == 0xd7)
  {
  }

  /** Of the architecture's branches that is BL and what calls through another register. */
  lemma CallsOver(link: bool, b: RegisterBranch, cond: bv32, wide: bool, nonzero: bool, bit: bv32, reg: bv32, offset: bv32)
    requires Encodable(b) && reg < 32
    ensures CallWord(EncodeB(link, offset)) <==> link
    ensures CallWord(EncodeRegister(b)) <==> Calls(b) && RegisterOf(b) != 30
    ensures !CallWord(EncodeBCond(cond, offset)) && !CallWord(EncodeCompare(wide, nonzero, reg, offset)) && !CallWord(EncodeTest(wide, nonzero, bit, reg, offset))
  {
    RegisterCalls(b);
    CallTops(cond, wide, nonzero, bit, reg, offset);
  }

  lemma RegisterCalls(b: RegisterBranch)
    requires Encodable(b)
    ensures CallWord(EncodeRegister(b)) <==> Calls(b) && RegisterOf(b) != 30
  {
  }

  lemma CallTops(cond: bv32, wide: bool, nonzero: bool, bit: bv32, reg: bv32, offset: bv32)
    ensures !CallWord(EncodeBCond(cond, offset)) && !CallWord(EncodeCompare(wide, nonzero, reg, offset)) && !CallWord(EncodeTest(wide, nonzero, bit, reg, offset))
  {
  }
}
