/** The expression evaluator's two-stack machine over characters (`expr.c`, `stack.c`). */
module ExprMachine {
  import opened Longs

  // ----- characters

  predicate IsDigit(c: char) { '0' <= c <= '9' }

  predicate IsHexLetter(c: char) { 'a' <= c <= 'f' || 'A' <= c <= 'F' }

  predicate IsXDigit(c: char) { IsDigit(c) || IsHexLetter(c) }

  predicate IsBlank(c: char) { c == ' ' || c == '\t' }

  predicate IsOperator(c: char) { c == '+' || c == '-' || c == '*' || c == '/' }

  /** A C string is followed by a NUL. */
  function CharAt(s: string, i: nat): char {
    if i < |s| then s[i] else '\0'
  }

  function DigitOf(c: char): nat
    requires IsXDigit(c)
  {
    if IsDigit(c) then (c - '0') as int
    else if 'a' <= c <= 'f' then (c - 'a') as int + 10
    else (c - 'A') as int + 10
  }

  /** perform_operation; None is its error return. */
  function Apply(left: int, right: int, op: char): Option<int> {
    if op == '+' then Some(Wrap(left + right))
    else if op == '-' then Some(Wrap(left - right))
    else if op == '*' then Some(Wrap(left * right))
    else if op == '/' then if right == 0 then None else Some(Wrap(TruncDiv(left, right)))
    else None
  }

  /** 'N' on the operator stack is a unary minus. */
  const NEGATION: char := 'N'

  function Precedence(op: char): nat {
    if op == '+' || op == '-' then 1
    else if op == '/' || op == '*' then 2
    else if op == NEGATION then 3
    else 0
  }

  // ----- the two stacks

  /** `under` records that an empty stack was popped, which the C code does not notice. */
  datatype Stacks = Stacks(ops: seq<char>, vals: seq<int>, under: bool) {
    function PushOp(op: char): Stacks { this.(ops := ops + [op]) }

    function PushVal(v: int): Stacks { this.(vals := vals + [v]) }

    function TopOp(): char {
      if ops == [] then '\0' else ops[|ops| - 1]
    }

    function DropOp(): (s: Stacks)
      ensures ops != [] ==> |s.ops| == |ops| - 1
    {
      if ops == [] then this.(under := true) else this.(ops := ops[..|ops| - 1])
    }

    /** Popping the empty operand stack yields LONG_MIN. */
    function TopVal(): int {
      if vals == [] then LONG_MIN else vals[|vals| - 1]
    }

    function DropVal(): (s: Stacks)
      ensures s.ops == ops
    {
      if vals == [] then this.(under := true) else this.(vals := vals[..|vals| - 1])
    }
  }

  /** A failure keeps the mark of an empty stack popped on the way to it. */
  datatype Step = Fail(under: bool) | Go(s: Stacks)

  /** process_stacks, and the push of its result. */
  function Reduce(s: Stacks): (r: Step)
    ensures r.Go? && s.ops != [] ==> r.s.ops == s.ops[..|s.ops| - 1]
  {
    var op := s.TopOp();
    var s1 := s.DropOp();
    var second := s1.TopVal();
    var s2 := s1.DropVal();
    if op == NEGATION then Go(s2.PushVal(Wrap(-second)))
    else
      var first := s2.TopVal();
      match Apply(first, second, op)
      case None => Fail(s2.DropVal().under)
      case Some(v) => Go(s2.DropVal().PushVal(v))
  }

  /** Before pushing an operator: reduce while the top binds at least as tightly. */
  function ReduceFor(s: Stacks, prec: nat): Step
    decreases |s.ops|
  {
    if s.ops != [] && Precedence(s.TopOp()) >= prec then
      match Reduce(s)
      case Fail(under) => Fail(under)
      case Go(s1) => ReduceFor(s1, prec)
    else Go(s)
  }

  function ReduceAfter(r: Step, prec: nat): Step {
    match r
    case Fail(under) => Fail(under)
    case Go(s) => ReduceFor(s, prec)
  }

  /** At a ')': reduce down to the '(', then drop it. */
  function Close(s: Stacks): Step
    decreases |s.ops|
  {
    if s.ops != [] && s.TopOp() != '(' then
      match Reduce(s)
      case Fail(under) => Fail(under)
      case Go(s1) => Close(s1)
    else Go(s.DropOp())
  }

  function ReduceAll(s: Stacks): Step
    decreases |s.ops|
  {
    if s.ops != [] then
      match Reduce(s)
      case Fail(under) => Fail(under)
      case Go(s1) => ReduceAll(s1)
    else Go(s)
  }

  // ----- reading the text

  /** A '-' is unary at the start and behind '(' or an operator. */
  predicate IsNeg(s: string, i: nat)
    requires i <= |s|
  {
    CharAt(s, i) == '-' && (i == 0 || s[i - 1] == '(' || IsOperator(s[i - 1]))
  }

  /** invalid_expr, for the character at `i`. */
  predicate InvalidAt(s: string, i: nat)
    requires i < |s|
  {
    if i == 0 then false
    else if !(IsOperator(s[i - 1]) && IsOperator(s[i])) then false
    else if s[i - 1] == s[i] then s[i] != '-'
    else !IsDigit(s[i]) && !IsNeg(s, i)
  }

  /** Two operators in a row are refused unless the second is a minus. */
  lemma InvalidIff(s: string, i: nat)
    requires 0 < i < |s|
    ensures InvalidAt(s, i) <==> IsOperator(s[i - 1]) && IsOperator(s[i]) && s[i] != '-'
  {
  }

  function SkipBlanks(s: string, i: nat): (j: nat)
    requires i <= |s|
    ensures i <= j <= |s|
    decreases |s| - i
  {
    if i < |s| && IsBlank(s[i]) then SkipBlanks(s, i + 1) else i
  }

  function XDigitsEnd(s: string, i: nat): (j: nat)
    requires i <= |s|
    ensures i <= j <= |s| && forall k :: i <= k < j ==> IsXDigit(s[k])
    ensures !IsXDigit(CharAt(s, j))
    decreases |s| - i
  {
    if i < |s| && IsXDigit(s[i]) then XDigitsEnd(s, i + 1) else i
  }

  /** The digits of a base from `i` on, as strtol takes them. */
  function DigitRun(s: string, base: nat, i: nat): (j: nat)
    requires i <= |s| && base <= 16
    ensures i <= j <= |s| && forall k :: i <= k < j ==> IsXDigit(s[k])
    decreases |s| - i
  {
    if i < |s| && IsXDigit(s[i]) && DigitOf(s[i]) < base then DigitRun(s, base, i + 1) else i
  }

  predicate AllXDigits(s: string) { forall k :: 0 <= k < |s| ==> IsXDigit(s[k]) }

  predicate HasHexLetter(s: string) { exists k :: 0 <= k < |s| && IsHexLetter(s[k]) }

  function DigitsValue(s: string, base: nat): nat
    requires AllXDigits(s)
  {
    if s == "" then 0 else DigitsValue(s[..|s| - 1], base) * base + DigitOf(s[|s| - 1])
  }

  /** strtol on a run of digits: saturates at LONG_MAX. */
  function NumberValue(digits: string, base: nat): int
    requires AllXDigits(digits)
  {
    var v := DigitsValue(digits, base);
    if v > LONG_MAX then LONG_MAX else v
  }

  predicate HexPrefix(s: string, i: nat) {
    i + 2 <= |s| && s[i] == '0' && s[i + 1] == 'x'
  }

  datatype Number = Number(end: nat, value: int)

  /** The number that starts at `i`: hexadecimal behind "0x" or with any letter in it, else decimal. */
  function ReadNumber(s: string, i: nat): (n: Number)
    requires i < |s| && IsXDigit(s[i])
    ensures i < n.end <= |s|
  {
    var start := if HexPrefix(s, i) then i + 2 else i;
    var end := XDigitsEnd(s, start);
    var digits := s[start..end];
    Number(end, NumberValue(digits, if start != i || HasHexLetter(digits) then 16 else 10))
  }

  datatype Read = Stuck(under: bool) | On(i: nat, s: Stacks)

  /** One round of evaluate's main loop from index `i`. */
  function Round(text: string, i: nat, s: Stacks): (r: Read)
    requires i < |text|
    ensures r.On? ==> i < r.i <= |text|
  {
    var j := SkipBlanks(text, i);
    var c := CharAt(text, j);
    if j == |text| then Stuck(s.under)
    else if IsNeg(text, j) then On(j + 1, s.PushOp(NEGATION))
    else if IsXDigit(c) then
      var n := ReadNumber(text, j);
      On(n.end, s.PushVal(n.value))
    else if c == '(' then On(j + 1, s.PushOp('('))
    else if c == ')' then
      match Close(s)
      case Fail(under) => Stuck(under)
      case Go(s1) => On(j + 1, s1)
    else if IsOperator(c) then
      match ReduceFor(s, Precedence(c))
      case Fail(under) => Stuck(under)
      case Go(s1) => On(j + 1, s1.PushOp(c))
    else Stuck(s.under)
  }

  function Run(text: string, i: nat, s: Stacks): Step
    requires i <= |text|
    decreases |text| - i
  {
    if i == |text| then Go(s)
    else
      match Round(text, i, s)
      case Stuck(under) => Fail(under)
      case On(j, s1) => Run(text, j, s1)
  }

  const EMPTY: Stacks := Stacks([], [], false)

  /** `underflow` tells whether an empty stack was popped on the way, `operands` how many there were
      when the last one was taken for the result. */
  datatype Result = Error(underflow: bool) | Value(v: int, operands: nat, underflow: bool)

  predicate Refused(text: string) {
    exists i :: 0 <= i < |text| && InvalidAt(text, i)
  }

  function Finish(s: Stacks): Result {
    match ReduceAll(s)
    case Fail(under) => Error(under)
    case Go(s1) => Value(s1.TopVal(), |s1.vals|, s1.DropVal().under)
  }

  /** evaluate(). */
  function Evaluate(text: string): Result {
    if Refused(text) then Error(false)
    else
      match Run(text, 0, EMPTY)
      case Fail(under) => Error(under)
      case Go(s) => Finish(s)
  }

  /** An operator other than minus behind another one is an error before anything is evaluated. */
  lemma InARowIsError(text: string, i: nat)
    requires 0 < i < |text| && text[i - 1] in "+-*/" && text[i] in "+*/"
    ensures Evaluate(text) == Error(false)
  {
    InvalidIff(text, i);
  }
}
