/** `evaluate` as the loop over two stack objects that it is, proved against the machine. */
module ExprEval {
  import opened Longs
  import opened ExprMachine
  import opened StackObjects

  /** The two stacks' contents as the machine's state; `under` is not kept at run time. */
  ghost function View(ops: Stack<char>, vals: Stack<int>, under: bool): Stacks
    reads ops, ops.data, vals, vals.data
  {
    Stacks(ops.Contents(), vals.Contents(), under)
  }

  ghost predicate Ready(ops: Stack<char>, vals: Stack<int>)
    reads ops, vals
  {
    ops.Valid() && vals.Valid() && ops.err == '\0' && vals.err == LONG_MIN
  }

  method PerformOperation(left: int, right: int, op: char) returns (v: int, failed: bool)
    ensures Apply(left, right, op) == if failed then None else Some(v)
  {
    failed := false;
    if op == '+' { return Wrap(left + right), false; }
    else if op == '-' { return Wrap(left - right), false; }
    else if op == '*' { return Wrap(left * right), false; }
    else if op == '/' {
      if right == 0 { return LONG_MIN, true; }
      return Wrap(TruncDiv(left, right)), false;
    }
    else { return LONG_MIN, true; }
  }

  /** Pops an operand, noticing when there is none. */
  method PopOperand(ops: Stack<char>, vals: Stack<int>, ghost under: bool) returns (v: int, ghost now: bool)
    requires Ready(ops, vals)
    modifies vals
    ensures Ready(ops, vals)
    ensures v == old(View(ops, vals, under)).TopVal() && View(ops, vals, now) == old(View(ops, vals, under)).DropVal()
  {
    now := View(ops, vals, under).DropVal().under;
    v := vals.Pop();
  }

  method PushOperator(ops: Stack<char>, vals: Stack<int>, op: char, ghost under: bool)
    requires Ready(ops, vals)
    modifies ops
    ensures Ready(ops, vals)
    ensures View(ops, vals, under) == old(View(ops, vals, under)).PushOp(op)
  {
    ops.Push(op);
  }

  lemma FlagAt(ops: Stack<char>, vals: Stack<int>, under: bool)
    ensures View(ops, vals, under).under == under
  {
  }

  method PushOperand(ops: Stack<char>, vals: Stack<int>, v: int, ghost under: bool)
    requires Ready(ops, vals)
    modifies vals
    ensures Ready(ops, vals)
    ensures View(ops, vals, under) == old(View(ops, vals, under)).PushVal(v)
  {
    vals.Push(v);
  }

  /** Pops an operator. */
  method PopOperator(ops: Stack<char>, vals: Stack<int>, ghost under: bool) returns (op: char, ghost now: bool)
    requires Ready(ops, vals)
    modifies ops
    ensures Ready(ops, vals)
    ensures op == old(View(ops, vals, under)).TopOp() && View(ops, vals, now) == old(View(ops, vals, under)).DropOp()
  {
    now := View(ops, vals, under).DropOp().under;
    op := ops.Pop();
  }

  /** process_stacks together with the push of its result. */
  method ProcessStacks(ops: Stack<char>, vals: Stack<int>, ghost under: bool) returns (failed: bool, ghost now: bool)
    requires Ready(ops, vals)
    modifies ops, vals
    ensures Ready(ops, vals)
    ensures Reduce(old(View(ops, vals, under))) == if failed then Fail(now) else Go(View(ops, vals, now))
  {
    hide Apply, View, Ready, Stacks.DropOp, Stacks.DropVal, Stacks.PushVal, Stacks.TopOp, Stacks.TopVal;
    ghost var s := View(ops, vals, under);
    var op, second;
    op, now := PopOperator(ops, vals, under);
    second, now := PopOperand(ops, vals, now);
    if op == NEGATION {
      PushOperand(ops, vals, Wrap(-second), now);
      return false, now;
    }
    var first, result;
    first, now := PopOperand(ops, vals, now);
    result, failed := PerformOperation(first, second, op);
    FlagAt(ops, vals, now);
    if !failed { PushOperand(ops, vals, result, now); }
  }

  /** The reductions an incoming operator of precedence `prec` calls for. */
  method ReduceStacksFor(ops: Stack<char>, vals: Stack<int>, prec: nat, ghost under: bool) returns (failed: bool, ghost now: bool)
    requires Ready(ops, vals)
    modifies ops, vals
    ensures Ready(ops, vals)
    ensures ReduceFor(old(View(ops, vals, under)), prec) == if failed then Fail(now) else Go(View(ops, vals, now))
  {
    hide Reduce, ReduceFor;
    now := under;
    while !ops.Empty()
      invariant Ready(ops, vals)
      invariant ReduceFor(View(ops, vals, now), prec) == ReduceFor(old(View(ops, vals, under)), prec)
      decreases |ops.Contents()|
    {
      var top := ops.Peek();
      ReduceForStep(View(ops, vals, now), prec);
      if Precedence(top) < prec { return false, now; }
      ReduceShrinks(View(ops, vals, now));
      failed, now := ProcessStacks(ops, vals, now);
      if failed { return; }
    }
    ReduceForStep(View(ops, vals, now), prec);
    failed := false;
  }

  lemma ReduceForStep(s: Stacks, prec: nat)
    ensures ReduceFor(s, prec) == if s.ops != [] && Precedence(s.TopOp()) >= prec
      then ReduceAfter(Reduce(s), prec) else Go(s)
  {
    hide Reduce;
  }

  lemma ReduceShrinks(s: Stacks)
    requires s.ops != []
    ensures Reduce(s).Go? ==> |Reduce(s).s.ops| == |s.ops| - 1
  {
  }

  /** The reductions at a ')'. */
  method CloseBracket(ops: Stack<char>, vals: Stack<int>, ghost under: bool) returns (failed: bool, ghost now: bool)
    requires Ready(ops, vals)
    modifies ops, vals
    ensures Ready(ops, vals)
    ensures Close(old(View(ops, vals, under))) == if failed then Fail(now) else Go(View(ops, vals, now))
  {
    hide Reduce, Close;
    now := under;
    while !ops.Empty()
      invariant Ready(ops, vals)
      invariant Close(View(ops, vals, now)) == Close(old(View(ops, vals, under)))
      decreases |ops.Contents()|
    {
      var top := ops.Peek();
      if top == '(' { break; }
      CloseReduces(View(ops, vals, now));
      ReduceShrinks(View(ops, vals, now));
      failed, now := ProcessStacks(ops, vals, now);
      if failed { return; }
    }
    failed := false;
    CloseDrops(View(ops, vals, now));
    hide View;
    var open;
    open, now := PopOperator(ops, vals, now);
  }

  lemma CloseReduces(s: Stacks)
    requires s.ops != [] && s.TopOp() != '('
    ensures Close(s) == match Reduce(s) case Fail(under) => Fail(under) case Go(s1) => Close(s1)
  {
    hide Reduce;
  }

  lemma CloseDrops(s: Stacks)
    requires s.ops == [] || s.TopOp() == '('
    ensures Close(s) == Go(s.DropOp())
  {
    hide Reduce;
  }

  /** The reductions at the end of the text. */
  method ReduceStacks(ops: Stack<char>, vals: Stack<int>, ghost under: bool) returns (failed: bool, ghost now: bool)
    requires Ready(ops, vals)
    modifies ops, vals
    ensures Ready(ops, vals)
    ensures ReduceAll(old(View(ops, vals, under))) == if failed then Fail(now) else Go(View(ops, vals, now))
  {
    hide Reduce;
    now := under;
    while !ops.Empty()
      invariant Ready(ops, vals)
      invariant ReduceAll(View(ops, vals, now)) == ReduceAll(old(View(ops, vals, under)))
      decreases |ops.Contents()|
    {
      ReduceShrinks(View(ops, vals, now));
      failed, now := ProcessStacks(ops, vals, now);
      if failed { return; }
    }
    failed := false;
  }

  method SkipBlanksFrom(text: string, i: nat) returns (j: nat)
    requires i <= |text|
    ensures j == SkipBlanks(text, i)
  {
    j := i;
    while j < |text| && IsBlank(text[j])
      invariant i <= j <= |text| && SkipBlanks(text, j) == SkipBlanks(text, i)
    {
      j := j + 1;
    }
  }

  /** The digit loop: advances past the number and settles its base. */
  method ScanNumber(text: string, i: nat) returns (end: nat, value: int)
    requires i < |text| && IsXDigit(text[i])
    ensures ReadNumber(text, i) == Number(end, value)
  {
    hide DigitsValue, HasHexLetter, NumberValue, DigitOf;
    NoHexLetter();
    var base := if IsDigit(text[i]) then 10 else 16;
    var start := i;
    if HexPrefix(text, i) {
      start := i + 2;
      base := 16;
    }
    end := start;
    assert text[start..start] == "";
    while end < |text| && IsXDigit(text[end])
      invariant start <= end <= |text| && XDigitsEnd(text, end) == XDigitsEnd(text, start)
      invariant AllXDigits(text[start..end])
      invariant base == if start != i || HasHexLetter(text[start..end]) || !IsDigit(text[i]) then 16 else 10
    {
      if IsHexLetter(text[end]) { base := 16; }
      HexLetterSnoc(text[start..end], text[end]);
      assert text[start..end + 1] == text[start..end] + [text[end]];
      end := end + 1;
    }
    if start == i && !IsDigit(text[i]) { FirstHexLetter(text[start..end]); }
    value := NumberValue(text[start..end], base);
  }

  lemma NoHexLetter()
    ensures !HasHexLetter("")
  {
  }

  lemma FirstHexLetter(s: string)
    requires s != "" && IsHexLetter(s[0])
    ensures HasHexLetter(s)
  {
  }

  lemma HexLetterSnoc(s: string, c: char)
    ensures HasHexLetter(s + [c]) <==> HasHexLetter(s) || IsHexLetter(c)
  {
    var t := s + [c];
    if HasHexLetter(t) {
      var k :| 0 <= k < |t| && IsHexLetter(t[k]);
      if k < |s| { assert IsHexLetter(s[k]); }
    }
    if HasHexLetter(s) {
      var k :| 0 <= k < |s| && IsHexLetter(s[k]);
      assert IsHexLetter(t[k]);
    }
    if IsHexLetter(c) { assert IsHexLetter(t[|s|]); }
  }

  /** One round of the main loop. */
  method ReadOne(text: string, i: nat, ops: Stack<char>, vals: Stack<int>, ghost under: bool) returns (stuck: bool, next: nat, ghost now: bool)
    requires i < |text| && Ready(ops, vals)
    modifies ops, vals
    ensures Ready(ops, vals)
    ensures Round(text, i, old(View(ops, vals, under))) == if stuck then Stuck(now) else On(next, View(ops, vals, now))
  {
    hide ReadNumber, Close, ReduceFor, SkipBlanks, IsXDigit, IsOperator, Precedence;
    FlagAt(ops, vals, under);
    hide View, Ready;
    stuck, now := false, under;
    var j := SkipBlanksFrom(text, i);
    next := j + 1;
    if j == |text| { return true, 0, under; }
    var c := text[j];
    if IsNeg(text, j) { PushOperator(ops, vals, NEGATION, under); }
    else if IsXDigit(c) {
      var value;
      next, value := ScanNumber(text, j);
      PushOperand(ops, vals, value, under);
    }
    else if c == '(' { PushOperator(ops, vals, '(', under); }
    else if c == ')' { stuck, now := CloseBracket(ops, vals, under); }
    else if IsOperator(c) {
      stuck, now := ReduceStacksFor(ops, vals, Precedence(c), under);
      if !stuck { PushOperator(ops, vals, c, now); }
    }
    else { stuck := true; }
  }

  method HasBadOperator(text: string) returns (bad: bool)
    ensures bad == Refused(text)
  {
    var i := 1;
    while i < |text|
      invariant 1 <= i && forall k :: 0 <= k < i && k < |text| ==> !InvalidAt(text, k)
    {
      if InvalidAt(text, i) { return true; }
      i := i + 1;
    }
    return false;
  }

  /** evaluate(): LONG_MIN and an error, or the value. */
  method EvaluateText(text: string) returns (failed: bool, v: int)
    ensures failed == Evaluate(text).Error?
    ensures v == if failed then LONG_MIN else Evaluate(text).v
  {
    hide Round, ReduceAll, Refused;
    var bad := HasBadOperator(text);
    if bad { return true, LONG_MIN; }
    var ops := new Stack<char>('\0');
    var vals := new Stack<int>(LONG_MIN);
    var i := 0;
    ghost var under := false;
    while i < |text|
      invariant i <= |text| && Ready(ops, vals) && fresh(ops) && fresh(vals)
      invariant Run(text, i, View(ops, vals, under)) == Run(text, 0, EMPTY)
    {
      ghost var s := View(ops, vals, under);
      ghost var k := i;
      var stuck;
      stuck, i, under := ReadOne(text, i, ops, vals, under);
      RunStep(text, k, s);
      if stuck { return true, LONG_MIN; }
    }
    assert Run(text, 0, EMPTY) == Go(View(ops, vals, under));
    failed, under := ReduceStacks(ops, vals, under);
    if failed { return true, LONG_MIN; }
    v := vals.Pop();
  }

  lemma RunStep(text: string, i: nat, s: Stacks)
    requires i < |text|
    ensures Run(text, i, s) == match Round(text, i, s) case Stuck(under) => Fail(under) case On(j, s1) => Run(text, j, s1)
    ensures Round(text, i, s).On? ==> i < Round(text, i, s).i <= |text|
  {
    hide Round;
  }
}
