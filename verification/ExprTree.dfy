/** Expressions as trees, their text and their value, and the proof of what the two-stack machine
    computes from the text. */
module ExprTree {
  import opened Arithmetic
  import opened Longs
  import opened ExprMachine

  /** `Juxt(l, e)` is the implied multiplication `l(e)`. */
  datatype Expr =
    | Lit(text: string)
    | Var(name: string)
    | Neg(e: Expr)
    | Bin(op: char, l: Expr, r: Expr)
    | Juxt(l: Expr, e: Expr)
    | Paren(e: Expr)

  function Text(e: Expr): string {
    match e
    case Lit(text) => text
    case Var(name) => name
    case Neg(e1) => "-" + Text(e1)
    case Bin(op, l, r) => Text(l) + [op] + Text(r)
    case Juxt(l, e1) => Text(l) + "(" + Text(e1) + ")"
    case Paren(e1) => "(" + Text(e1) + ")"
  }

  /** How tightly the outermost construct binds. */
  function Level(e: Expr): nat {
    match e
    case Bin(op, _, _) => Precedence(op)
    case Juxt(_, _) => 2
    case Neg(_) => 3
    case _ => 4
  }

  // ----- literals

  predicate GoodLit(text: string) {
    if HexPrefix(text, 0) then |text| > 2 && AllXDigits(text[2..]) else text != "" && AllXDigits(text)
  }

  function LitValue(text: string): int
    requires GoodLit(text)
  {
    if HexPrefix(text, 0) then NumberValue(text[2..], 16)
    else NumberValue(text, if HasHexLetter(text) then 16 else 10)
  }

  // ----- names

  predicate IsNameChar(c: char) {
    !IsOperator(c) && c != '(' && c != ')' && !IsBlank(c) && c != '\0'
  }

  predicate GoodName(name: string) {
    name != "" && name[0] == '$' && forall k :: 0 <= k < |name| ==> IsNameChar(name[k])
  }

  // ----- usual precedence and left associativity

  /** The tree is the one its text denotes: operands bind tightly enough where they stand. */
  predicate Canonical(e: Expr) {
    match e
    case Lit(text) => GoodLit(text)
    case Var(name) => GoodName(name)
    case Neg(e1) => Canonical(e1) && Level(e1) >= 3
    case Bin(op, l, r) => IsOperator(op) && Canonical(l) && Canonical(r) && Level(l) >= Precedence(op) && Level(r) > Precedence(op)
    case Juxt(l, e1) => Canonical(l) && Canonical(e1) && Level(l) >= 2
    case Paren(e1) => Canonical(e1)
  }

  /** Leaves and operators are ones; nothing is said of how tightly they bind. */
  predicate Formed(e: Expr) {
    match e
    case Lit(text) => GoodLit(text)
    case Var(name) => GoodName(name)
    case Neg(e1) => Formed(e1)
    case Bin(op, l, r) => IsOperator(op) && Formed(l) && Formed(r)
    case Juxt(l, e1) => Formed(l) && Formed(e1)
    case Paren(e1) => Formed(e1)
  }

  lemma {:induction false} CanonicalFormed(e: Expr)
    requires Canonical(e)
    ensures Formed(e)
  {
    match e
    case Neg(e1) => CanonicalFormed(e1);
    case Bin(_, l, r) => CanonicalFormed(l); CanonicalFormed(r);
    case Juxt(l, e1) => CanonicalFormed(l); CanonicalFormed(e1);
    case Paren(e1) => CanonicalFormed(e1);
    case _ =>
  }

  /** Without variables. */
  predicate Closed(e: Expr) {
    match e
    case Lit(_) => true
    case Var(_) => false
    case Neg(e1) => Closed(e1)
    case Bin(_, l, r) => Closed(l) && Closed(r)
    case Juxt(l, e1) => Closed(l) && Closed(e1)
    case Paren(e1) => Closed(e1)
  }

  /** Without variables and implied multiplications. */
  predicate Plain(e: Expr) {
    match e
    case Lit(_) => true
    case Var(_) => false
    case Neg(e1) => Plain(e1)
    case Bin(_, l, r) => Plain(l) && Plain(r)
    case Juxt(_, _) => false
    case Paren(e1) => Plain(e1)
  }

  /** The value under `env`; None if any division anywhere is by zero. */
  function ValueOf(e: Expr, env: map<string, int>): Option<int>
    requires Canonical(e)
  {
    match e
    case Lit(text) => Some(LitValue(text))
    case Var(name) => if name in env then Some(env[name]) else None
    case Neg(e1) => (match ValueOf(e1, env) case None => None case Some(v) => Some(Wrap(-v)))
    case Bin(op, l, r) => Combine(ValueOf(l, env), ValueOf(r, env), op)
    case Juxt(l, e1) => Combine(ValueOf(l, env), ValueOf(e1, env), '*')
    case Paren(e1) => ValueOf(e1, env)
  }

  function Combine(l: Option<int>, r: Option<int>, op: char): Option<int> {
    match (l, r)
    case (Some(a), Some(b)) => Apply(a, b, op)
    case _ => None
  }

  // ----- what a tree means, said of integers

  /** The figure's value, in either case. */
  function Figure(c: char): int {
    match c
    case '0' => 0 case '1' => 1 case '2' => 2 case '3' => 3 case '4' => 4
    case '5' => 5 case '6' => 6 case '7' => 7 case '8' => 8 case '9' => 9
    case 'a' => 10 case 'b' => 11 case 'c' => 12 case 'd' => 13 case 'e' => 14 case 'f' => 15
    case 'A' => 10 case 'B' => 11 case 'C' => 12 case 'D' => 13 case 'E' => 14 case 'F' => 15
    case _ => -1
  }

  predicate Figures(text: string) {
    forall k :: 0 <= k < |text| ==> Figure(text[k]) >= 0
  }

  function Power(base: nat, n: nat): nat {
    if n == 0 then 1 else base * Power(base, n - 1)
  }

  /** The first figure counts most. */
  function Positional(text: string, base: nat): int {
    if text == "" then 0 else Figure(text[0]) * Power(base, |text| - 1) + Positional(text[1..], base)
  }

  predicate Prefixed(text: string) {
    |text| >= 2 && text[..2] == "0x"
  }

  predicate Numeral(text: string) {
    if Prefixed(text) then text[2..] != "" && Figures(text[2..]) else text != "" && Figures(text)
  }

  /** Hexadecimal behind "0x" or with a letter in it, else decimal. What is too large is the largest long. */
  function NumeralValue(text: string): int {
    var n := if Prefixed(text) then Positional(text[2..], 16)
             else if exists k :: 0 <= k < |text| && Figure(text[k]) > 9 then Positional(text, 16)
             else Positional(text, 10);
    if n > 0x7fff_ffff_ffff_ffff then 0x7fff_ffff_ffff_ffff else n
  }

  /** The result of an operation on two longs; none if it divides by zero. */
  ghost predicate Operation(op: char, a: int, b: int, v: Option<int>) {
    match op
    case '+' => v.Some? && Becomes(a + b, v.value)
    case '-' => v.Some? && Becomes(a - b, v.value)
    case '*' => v.Some? && Becomes(a * b, v.value)
    case '/' => if b == 0 then v.None? else v.Some? && exists q, r :: Quotient(a, b, q, r) && Becomes(q, v.value)
    case _ => false
  }

  ghost predicate Combined(op: char, a: Option<int>, b: Option<int>, v: Option<int>) {
    if a.Some? && b.Some? then Operation(op, a.value, b.value, v) else v.None?
  }

  /** The tree stands for `v` when its variables stand for their longs in `env`; for none if a variable
      is unknown or some division is by zero. */
  ghost predicate Denotes(e: Expr, env: map<string, int>, v: Option<int>) {
    match e
    case Lit(text) => v == Some(NumeralValue(text))
    case Var(name) => v == if name in env then Some(env[name]) else None
    case Neg(e1) => exists a :: Denotes(e1, env, a) && if a.None? then v.None? else v.Some? && Becomes(-a.value, v.value)
    case Bin(op, l, r) => exists a, b :: Denotes(l, env, a) && Denotes(r, env, b) && Combined(op, a, b, v)
    case Juxt(l, e1) => exists a, b :: Denotes(l, env, a) && Denotes(e1, env, b) && Combined('*', a, b, v)
    case Paren(e1) => Denotes(e1, env, v)
  }

  lemma OperationOne(op: char, a: int, b: int, v: Option<int>, w: Option<int>)
    requires Operation(op, a, b, v) && Operation(op, a, b, w)
    ensures v == w
  {
    hide Becomes, Quotient;
    if op == '/' {
      if b != 0 {
        var q, r :| Quotient(a, b, q, r) && Becomes(q, v.value);
        var q1, r1 :| Quotient(a, b, q1, r1) && Becomes(q1, w.value);
        QuotientOne(a, b, q, r, q1, r1);
        BecomesOne(q, v.value, w.value);
      }
    } else {
      BecomesOne(if op == '+' then a + b else if op == '-' then a - b else a * b, v.value, w.value);
    }
  }

  /** It stands for one value at most. */
  lemma {:induction false} DenotesOne(e: Expr, env: map<string, int>, v: Option<int>, w: Option<int>)
    requires Denotes(e, env, v) && Denotes(e, env, w)
    ensures v == w
    decreases e, 1
  {
    hide Operation, Becomes;
    match e
    case Neg(e1) =>
      var a :| Denotes(e1, env, a) && if a.None? then v.None? else v.Some? && Becomes(-a.value, v.value);
      var a1 :| Denotes(e1, env, a1) && if a1.None? then w.None? else w.Some? && Becomes(-a1.value, w.value);
      DenotesOne(e1, env, a, a1);
      if a.Some? { BecomesOne(-a.value, v.value, w.value); }
    case Bin(op, l, r) => PairOne(e, l, r, op, env, v, w);
    case Juxt(l, e1) => PairOne(e, l, e1, '*', env, v, w);
    case Paren(e1) => DenotesOne(e1, env, v, w);
    case _ =>
  }

  lemma {:induction false} PairOne(e: Expr, l: Expr, r: Expr, op: char, env: map<string, int>, v: Option<int>, w: Option<int>)
    requires l < e && r < e
    requires exists a, b :: Denotes(l, env, a) && Denotes(r, env, b) && Combined(op, a, b, v)
    requires exists a, b :: Denotes(l, env, a) && Denotes(r, env, b) && Combined(op, a, b, w)
    ensures v == w
    decreases e, 0
  {
    hide Operation, Denotes;
    var a, b :| Denotes(l, env, a) && Denotes(r, env, b) && Combined(op, a, b, v);
    var a1, b1 :| Denotes(l, env, a1) && Denotes(r, env, b1) && Combined(op, a1, b1, w);
    DenotesOne(l, env, a, a1);
    DenotesOne(r, env, b, b1);
    if a.Some? && b.Some? { OperationOne(op, a.value, b.value, v, w); }
  }

  lemma ApplyComputes(a: int, b: int, op: char)
    requires op in "+-*/"
    ensures Operation(op, a, b, Apply(a, b, op))
  {
    hide Wrap, TruncDiv, Quotient, Becomes;
    WrapBecomes(a + b);
    WrapBecomes(a - b);
    WrapBecomes(a * b);
    if b != 0 {
      TruncDivIs(a, b);
      WrapBecomes(TruncDiv(a, b));
    }
  }

  lemma FigureIs(c: char)
    ensures IsXDigit(c) <==> Figure(c) >= 0
    ensures IsXDigit(c) ==> Figure(c) == DigitOf(c)
    ensures IsHexLetter(c) <==> Figure(c) > 9
  {
  }

  lemma FiguresAre(text: string)
    ensures Figures(text) <==> AllXDigits(text)
    ensures HasHexLetter(text) <==> exists k :: 0 <= k < |text| && Figure(text[k]) > 9
  {
    forall k | 0 <= k < |text| ensures (IsXDigit(text[k]) <==> Figure(text[k]) >= 0) && (IsHexLetter(text[k]) <==> Figure(text[k]) > 9) {
      FigureIs(text[k]);
    }
    hide Figure, IsXDigit, IsHexLetter;
  }

  lemma {:induction false} PositionalSnoc(text: string, base: nat)
    requires text != ""
    ensures Positional(text, base) == Positional(text[..|text| - 1], base) * base + Figure(text[|text| - 1])
  {
    hide Figure;
    if |text| > 1 {
      var front, rest := text[..|text| - 1], text[1..];
      PositionalSnoc(rest, base);
      assert rest[..|rest| - 1] == front[1..];
      var f, p := Figure(text[0]), Power(base, |text| - 2);
      assert Power(base, |text| - 1) == base * p;
      Spread3(f, base, p, Positional(front[1..], base));
    } else {
      assert text[1..] == "" && text[..0] == "";
    }
  }

  lemma Spread3(f: int, b: int, p: int, x: int)
    ensures f * (b * p) + x * b == (f * p + x) * b
  {
    assert f * (b * p) == f * p * b;
  }

  lemma {:induction false} DigitsArePositional(text: string, base: nat)
    requires AllXDigits(text)
    ensures DigitsValue(text, base) == Positional(text, base)
  {
    hide Figure, IsXDigit;
    if text != "" {
      DigitsArePositional(text[..|text| - 1], base);
      PositionalSnoc(text, base);
      FigureIs(text[|text| - 1]);
    }
  }

  lemma LitMeans(text: string)
    ensures GoodLit(text) <==> Numeral(text)
    ensures GoodLit(text) ==> LitValue(text) == NumeralValue(text)
  {
    assert HexPrefix(text, 0) <==> Prefixed(text);
    var digits := if Prefixed(text) then text[2..] else text;
    FiguresAre(digits);
    if GoodLit(text) {
      DigitsArePositional(digits, 16);
      DigitsArePositional(digits, 10);
    }
    hide Figure, AllXDigits, HasHexLetter, DigitsValue, Positional;
  }

  /** What `ValueOf` computes is what the tree stands for. */
  lemma {:induction false} ValueDenotes(e: Expr, env: map<string, int>)
    requires Canonical(e)
    ensures Denotes(e, env, ValueOf(e, env))
  {
    hide Apply, Operation, Wrap, NumeralValue, LitValue, GoodLit;
    match e
    case Lit(text) => LitMeans(text);
    case Var(_) =>
    case Neg(e1) =>
      ValueDenotes(e1, env);
      if ValueOf(e1, env).Some? { WrapBecomes(-ValueOf(e1, env).value); }
    case Bin(op, l, r) =>
      ValueDenotes(l, env);
      ValueDenotes(r, env);
      CombineCombines(ValueOf(l, env), ValueOf(r, env), op);
    case Juxt(l, e1) =>
      ValueDenotes(l, env);
      ValueDenotes(e1, env);
      CombineCombines(ValueOf(l, env), ValueOf(e1, env), '*');
    case Paren(e1) => ValueDenotes(e1, env);
  }

  lemma CombineCombines(a: Option<int>, b: Option<int>, op: char)
    requires IsOperator(op)
    ensures Combined(op, a, b, Combine(a, b, op))
  {
    hide Apply, Operation;
    if a.Some? && b.Some? { ApplyComputes(a.value, b.value, op); }
  }

  /** The tree that its text denotes by the usual rules: products bind tighter than sums, both from
      left to right, and a sign tightest. */
  predicate Written(e: Expr) {
    match e
    case Lit(text) => Numeral(text)
    case Var(name) => |name| > 0 && name[0] == '$' && forall k :: 0 <= k < |name| ==> name[k] !in "+-*/() \t\0"
    case Neg(e1) => Written(e1) && !e1.Bin? && !e1.Juxt?
    case Bin(op, l, r) =>
      && Written(l) && Written(r)
      && (if op in "*/" then !IsSum(l) && !r.Bin? && !r.Juxt? else op in "+-" && !IsSum(r))
    case Juxt(l, e1) => Written(l) && Written(e1) && !IsSum(l)
    case Paren(e1) => Written(e1)
  }

  predicate IsSum(e: Expr) {
    e.Bin? && e.op in "+-"
  }

  lemma {:induction false} CanonicalIff(e: Expr)
    ensures Canonical(e) <==> Written(e)
  {
    hide GoodLit, Numeral;
    match e
    case Lit(text) => LitMeans(text);
    case Var(_) =>
    case Neg(e1) => CanonicalIff(e1); BinOperator(e1);
    case Bin(_, l, r) => CanonicalIff(l); CanonicalIff(r); BinOperator(l); BinOperator(r);
    case Juxt(l, e1) => CanonicalIff(l); CanonicalIff(e1); BinOperator(l);
    case Paren(e1) => CanonicalIff(e1);
  }

  lemma BinOperator(e: Expr)
    ensures Canonical(e) && e.Bin? ==> e.op in "+-*/"
    ensures Written(e) && e.Bin? ==> e.op in "+-*/"
  {
  }

  // ----- what the text of a tree looks like

  /** Two operators in a row only if the second is a minus. */
  predicate Clean(s: string) {
    forall i :: 0 < i < |s| ==> !(IsOperator(s[i - 1]) && IsOperator(s[i]) && s[i] != '-')
  }

  predicate EndsOperand(c: char) {
    !IsOperator(c) && c != '(' && !IsBlank(c)
  }

  /** How a tree's text begins and ends. */
  lemma {:induction false} TextEnds(e: Expr)
    requires Formed(e)
    ensures Text(e) != ""
    ensures Text(e)[0] == '-' || Text(e)[0] == '(' || IsXDigit(Text(e)[0]) || Text(e)[0] == '$'
    ensures EndsOperand(Text(e)[|Text(e)| - 1])
  {
    match e
    case Lit(text) =>
      if HexPrefix(text, 0) { assert text[|text| - 1] == text[2..][|text| - 3]; }
    case Var(name) =>
    case Neg(e1) => TextEnds(e1);
    case Bin(op, l, r) => TextEnds(l); TextEnds(r);
    case Juxt(l, e1) => TextEnds(l);
    case Paren(e1) =>
  }

  lemma CleanJoin(a: string, b: string)
    requires Clean(a) && Clean(b)
    requires a != "" && b != "" ==> !(IsOperator(a[|a| - 1]) && IsOperator(b[0]) && b[0] != '-')
    ensures Clean(a + b)
  {
    forall i | 0 < i < |a + b| ensures !(IsOperator((a + b)[i - 1]) && IsOperator((a + b)[i]) && (a + b)[i] != '-') {
      if i < |a| { assert (a + b)[i] == a[i] && (a + b)[i - 1] == a[i - 1]; }
      else if i == |a| { }
      else { assert (a + b)[i] == b[i - |a|] && (a + b)[i - 1] == b[i - |a| - 1]; }
    }
  }

  lemma {:induction false} TextClean(e: Expr)
    requires Formed(e)
    ensures Clean(Text(e))
  {
    hide Clean;
    match e
    case Lit(text) => LeafClean(e);
    case Var(name) => LeafClean(e);
    case Neg(e1) =>
      TextClean(e1); TextEnds(e1);
      CharClean('-');
      CleanJoin("-", Text(e1));
    case Bin(op, l, r) =>
      TextClean(l); TextEnds(l); TextClean(r); TextEnds(r);
      BinClean(Text(l), op, Text(r));
    case Juxt(l, e1) =>
      TextClean(l); TextEnds(l); TextClean(e1); TextEnds(e1);
      BracketClean(Text(e1));
      CleanJoin(Text(l), "(" + Text(e1) + ")");
      assert Text(l) + "(" + Text(e1) + ")" == Text(l) + ("(" + Text(e1) + ")");
    case Paren(e1) =>
      TextClean(e1); TextEnds(e1);
      BracketClean(Text(e1));
  }

  lemma LeafClean(e: Expr)
    requires Formed(e) && (e.Lit? || e.Var?)
    ensures Clean(Text(e))
  {
    if e.Lit? && HexPrefix(e.text, 0) {
      forall i | 0 < i < |e.text| ensures !IsOperator(e.text[i]) {
        if i >= 2 { assert e.text[i] == e.text[2..][i - 2]; }
      }
    }
  }

  lemma CharClean(c: char)
    ensures Clean([c])
  {
  }

  lemma BinClean(a: string, op: char, b: string)
    requires IsOperator(op) && Clean(a) && Clean(b) && a != "" && b != ""
    requires !IsOperator(a[|a| - 1]) && !(IsOperator(b[0]) && b[0] != '-')
    ensures Clean(a + [op] + b)
  {
    hide Clean;
    CharClean(op);
    CleanJoin(a, [op]);
    CleanJoin(a + [op], b);
  }

  lemma BracketClean(t: string)
    requires Clean(t) && t != "" && !(IsOperator(t[0]) && t[0] != '-')
    ensures Clean("(" + t + ")")
  {
    hide Clean;
    CharClean('(');
    CharClean(')');
    CleanJoin("(", t);
    CleanJoin("(" + t, ")");
  }

  /** No tree's text is refused. */
  lemma TextNotRefused(e: Expr)
    requires Canonical(e)
    ensures !Refused(Text(e))
  {
    CanonicalFormed(e);
    TextClean(e);
    forall i | 0 <= i < |Text(e)| ensures !InvalidAt(Text(e), i) {
      if i > 0 { InvalidIff(Text(e), i); }
    }
  }

  // ----- the tree the machine reads

  /** The machine knows no implied multiplication: it takes a bracket as an operand of its own behind
      the literal or bracket next to it, inside whatever operators are pending. */
  function Hang(l: Expr, e: Expr): Expr {
    match l
    case Neg(l1) => Neg(Hang(l1, e))
    case Bin(op, l1, r1) => Bin(op, l1, Hang(r1, e))
    case _ => Juxt(l, e)
  }

  function Regroup(e: Expr): Expr {
    match e
    case Neg(e1) => Neg(Regroup(e1))
    case Bin(op, l, r) => Bin(op, Regroup(l), Regroup(r))
    case Juxt(l, e1) => Hang(Regroup(l), Regroup(e1))
    case Paren(e1) => Paren(Regroup(e1))
    case _ => e
  }

  /** How tightly it binds for the machine. */
  function Tightness(e: Expr): nat {
    match e
    case Bin(op, _, _) => Precedence(op)
    case Neg(_) => 3
    case _ => 4
  }

  /** A tree as the machine reads its text. */
  predicate Grouped(e: Expr) {
    match e
    case Lit(text) => GoodLit(text)
    case Var(name) => GoodName(name)
    case Neg(e1) => Grouped(e1) && Tightness(e1) >= 3
    case Bin(op, l, r) => IsOperator(op) && Grouped(l) && Grouped(r) && Tightness(l) >= Precedence(op) && Tightness(r) > Precedence(op)
    case Juxt(l, e1) => Grouped(l) && Grouped(e1) && Tightness(l) >= 4
    case Paren(e1) => Grouped(e1)
  }

  lemma {:induction false} HangText(l: Expr, e: Expr)
    ensures Text(Hang(l, e)) == Text(l) + "(" + Text(e) + ")"
  {
    match l
    case Neg(l1) =>
      HangText(l1, e);
      assert Text(Hang(l, e)) == "-" + Text(Hang(l1, e));
      hide Text, Hang;
      assert "-" + (Text(l1) + "(" + Text(e) + ")") == ("-" + Text(l1)) + "(" + Text(e) + ")";
    case Bin(op, l1, r1) =>
      HangText(r1, e);
      assert Text(Hang(l, e)) == Text(l1) + [op] + Text(Hang(r1, e));
      hide Text, Hang;
      assert Text(l1) + [op] + (Text(r1) + "(" + Text(e) + ")") == (Text(l1) + [op] + Text(r1)) + "(" + Text(e) + ")";
    case _ =>
  }

  lemma {:induction false} HangGroups(l: Expr, e: Expr)
    requires Grouped(l) && Grouped(e)
    ensures Grouped(Hang(l, e)) && Tightness(Hang(l, e)) == Tightness(l)
    ensures Closed(l) && Closed(e) ==> Closed(Hang(l, e))
  {
    match l
    case Neg(l1) => HangGroups(l1, e);
    case Bin(_, _, r1) => HangGroups(r1, e);
    case _ =>
  }

  /** The same text, grouped as the machine does. */
  lemma {:induction false} RegroupGroups(e: Expr)
    requires Canonical(e)
    ensures var g := Regroup(e); Grouped(g) && Tightness(g) >= Level(e) && Text(g) == Text(e)
    ensures Closed(e) ==> Closed(Regroup(e))
  {
    match e
    case Neg(e1) => RegroupGroups(e1);
    case Bin(_, l, r) => RegroupGroups(l); RegroupGroups(r);
    case Juxt(l, e1) => RegroupGroups(l); RegroupGroups(e1); HangGroups(Regroup(l), Regroup(e1)); HangText(Regroup(l), Regroup(e1));
    case Paren(e1) => RegroupGroups(e1);
    case _ =>
  }

  lemma {:induction false} GroupedFormed(e: Expr)
    requires Grouped(e)
    ensures Formed(e)
  {
    match e
    case Neg(e1) => GroupedFormed(e1);
    case Bin(_, l, r) => GroupedFormed(l); GroupedFormed(r);
    case Juxt(l, e1) => GroupedFormed(l); GroupedFormed(e1);
    case Paren(e1) => GroupedFormed(e1);
    case _ =>
  }

  /** The operands a tree leaves behind, one more for every implied multiplication; None if a division
      made on the way is by zero. */
  function Operands(e: Expr): (vs: Option<seq<int>>)
    requires Grouped(e) && Closed(e)
    ensures vs.Some? ==> |vs.value| == 1 + Joints(e)
  {
    match e
    case Lit(text) => Some([LitValue(text)])
    case Neg(e1) => (match Operands(e1) case None => None case Some(vs) => Some(NegateTop(vs)))
    case Bin(op, l, r) =>
      (match (Operands(l), Operands(r))
       case (Some(a), Some(b)) => ApplyTop(a + b, op)
       case _ => None)
    case Juxt(l, e1) =>
      (match (Operands(l), Operands(e1))
       case (Some(a), Some(b)) => Some(a + b)
       case _ => None)
    case Paren(e1) => Operands(e1)
  }

  function NegateTop(vs: seq<int>): (r: seq<int>)
    requires vs != []
    ensures |r| == |vs|
  {
    vs[..|vs| - 1] + [Wrap(-vs[|vs| - 1])]
  }

  /** An operator takes the last two operands, whoever left them. */
  function ApplyTop(vs: seq<int>, op: char): (r: Option<seq<int>>)
    requires |vs| >= 2
    ensures r.Some? ==> |r.value| == |vs| - 1
  {
    match Apply(vs[|vs| - 2], vs[|vs| - 1], op)
    case None => None
    case Some(v) => Some(vs[..|vs| - 2] + [v])
  }

  /** The implied multiplications. */
  function Joints(e: Expr): nat {
    match e
    case Neg(e1) => Joints(e1)
    case Bin(_, l, r) => Joints(l) + Joints(r)
    case Juxt(l, e1) => Joints(l) + Joints(e1) + 1
    case Paren(e1) => Joints(e1)
    case _ => 0
  }

  lemma {:induction false} HangJoints(l: Expr, e: Expr)
    ensures Joints(Hang(l, e)) == Joints(l) + Joints(e) + 1
  {
    match l
    case Neg(l1) => HangJoints(l1, e);
    case Bin(_, _, r1) => HangJoints(r1, e);
    case _ =>
  }

  lemma {:induction false} RegroupJoints(e: Expr)
    ensures Joints(Regroup(e)) == Joints(e)
  {
    match e
    case Neg(e1) => RegroupJoints(e1);
    case Bin(_, l, r) => RegroupJoints(l); RegroupJoints(r);
    case Juxt(l, e1) => RegroupJoints(l); RegroupJoints(e1); HangJoints(Regroup(l), Regroup(e1));
    case Paren(e1) => RegroupJoints(e1);
    case _ =>
  }

  /** Without implied multiplications the machine reads the tree itself. */
  lemma {:induction false} PlainGroups(e: Expr)
    requires Canonical(e) && Plain(e)
    ensures Regroup(e) == e && Grouped(e) && Closed(e) && Tightness(e) == Level(e)
  {
    match e
    case Lit(_) =>
    case Neg(e1) => PlainGroups(e1);
    case Bin(_, l, r) => PlainGroups(l); PlainGroups(r);
    case Paren(e1) => PlainGroups(e1);
  }

  function One(v: Option<int>): Option<seq<int>> {
    match v
    case None => None
    case Some(x) => Some([x])
  }

  /** Then one operand is left: the tree's value. */
  lemma {:induction false} PlainOperands(e: Expr)
    requires Canonical(e) && Plain(e)
    ensures Regroup(e) == e && Grouped(e) && Closed(e) && Operands(e) == One(ValueOf(e, map[]))
  {
    PlainGroups(e);
    hide Regroup, Tightness, Level;
    match e
    case Lit(_) =>
    case Neg(e1) =>
      PlainOperands(e1);
      hide Canonical, Plain, Grouped, Closed, Wrap;
      NegOne(e1);
    case Bin(op, l, r) =>
      PlainOperands(l);
      PlainOperands(r);
      BinOne(op, l, r);
    case Paren(e1) => PlainOperands(e1);
  }

  lemma NegOne(e: Expr)
    requires Canonical(Neg(e)) && Grouped(Neg(e)) && Closed(e) && Operands(e) == One(ValueOf(e, map[]))
    ensures Operands(Neg(e)) == One(ValueOf(Neg(e), map[]))
  {
    hide NegateTop;
    var v := ValueOf(e, map[]);
    if v.Some? { NegateOne(v.value); }
  }

  lemma NegateOne(v: int)
    ensures NegateTop([v]) == [Wrap(-v)]
  {
    hide Wrap;
  }

  lemma BinOne(op: char, l: Expr, r: Expr)
    requires Canonical(Bin(op, l, r)) && Grouped(Bin(op, l, r)) && Closed(l) && Closed(r)
    requires Operands(l) == One(ValueOf(l, map[])) && Operands(r) == One(ValueOf(r, map[]))
    ensures Operands(Bin(op, l, r)) == One(ValueOf(Bin(op, l, r), map[]))
  {
    hide Apply, ApplyTop;
    var a, b := ValueOf(l, map[]), ValueOf(r, map[]);
    if a.Some? && b.Some? { ApplyTwo(a.value, b.value, op); }
  }

  lemma ApplyTwo(a: int, b: int, op: char)
    ensures ApplyTop([a] + [b], op) == One(Apply(a, b, op))
  {
    hide Apply;
    var vs := [a] + [b];
    assert vs[0] == a && vs[1] == b;
    match Apply(a, b, op)
    case None =>
    case Some(v) => assert vs[..0] + [v] == [v];
  }

  // ----- reading a tree's text

  /** The machine's state behind the text of `e`: some operators of `e` may still be pending. */
  function After(e: Expr, s: Stacks): Step
    requires Grouped(e) && Closed(e)
  {
    match e
    case Lit(text) => Go(s.PushVal(LitValue(text)))
    case Neg(e1) => After(e1, s.PushOp(NEGATION))
    case Bin(op, l, r) =>
      (match After(l, s)
       case Fail(under) => Fail(under)
       case Go(s1) =>
         match ReduceFor(s1, Precedence(op))
         case Fail(under) => Fail(under)
         case Go(s2) => After(r, s2.PushOp(op)))
    case Juxt(l, e1) =>
      (match After(l, s)
       case Fail(under) => Fail(under)
       case Go(s1) => Closing(After(e1, s1.PushOp('('))))
    case Paren(e1) => Closing(After(e1, s.PushOp('(')))
  }

  function Closing(r: Step): Step {
    match r
    case Fail(under) => Fail(under)
    case Go(s) => Close(s)
  }

  predicate At(s: string, i: nat, part: string) {
    i + |part| <= |s| && s[i..i + |part|] == part
  }

  /** An operand may start at `i`. */
  predicate OperandAt(s: string, i: nat)
    requires i <= |s|
  {
    i == 0 || s[i - 1] == '(' || IsOperator(s[i - 1])
  }

  /** An operand may end before `i`. */
  predicate EndAt(s: string, i: nat)
    requires i <= |s|
  {
    i == |s| || s[i] == '(' || s[i] == ')' || IsOperator(s[i])
  }

  lemma AtSplit(s: string, i: nat, a: string, b: string)
    requires At(s, i, a + b)
    ensures At(s, i, a) && At(s, i + |a|, b)
  {
    var t := s[i..i + |a + b|];
    assert t[..|a|] == a && t[|a|..] == b;
    assert s[i..i + |a|] == t[..|a|] && s[i + |a|..i + |a| + |b|] == t[|a|..];
  }

  lemma {:induction false} XDigitsEndAt(s: string, i: nat, j: nat)
    requires i <= j <= |s| && (forall k :: i <= k < j ==> IsXDigit(s[k])) && !IsXDigit(CharAt(s, j))
    ensures XDigitsEnd(s, i) == j
    decreases j - i
  {
    if i < j { XDigitsEndAt(s, i + 1, j); }
  }

  lemma ReadLit(s: string, i: nat, text: string)
    requires At(s, i, text) && GoodLit(text) && EndAt(s, i + |text|)
    ensures i < |s| && IsXDigit(s[i]) && ReadNumber(s, i) == Number(i + |text|, LitValue(text))
  {
    var end := i + |text|;
    assert forall k :: 0 <= k < |text| ==> s[i + k] == text[k];
    if HexPrefix(text, 0) {
      assert s[i] == text[0] && s[i + 1] == text[1];
      forall k | i + 2 <= k < end ensures IsXDigit(s[k]) { assert s[k] == text[2..][k - i - 2]; }
      XDigitsEndAt(s, i + 2, end);
      assert s[i + 2..end] == text[2..];
    } else {
      assert s[i] == text[0];
      forall k | i <= k < end ensures IsXDigit(s[k]) { assert s[k] == text[k - i]; }
      assert !HexPrefix(s, i) by {
        if |text| > 1 { assert s[i + 1] == text[1]; }
      }
      XDigitsEndAt(s, i, end);
      assert s[i..end] == text;
    }
  }

  function Then(r: Step, text: string, i: nat): Step
    requires i <= |text|
  {
    match r
    case Fail(under) => Fail(under)
    case Go(s) => Run(text, i, s)
  }

  /** The machine steps over a '-' that is unary. */
  lemma ReadNeg(text: string, i: nat, s: Stacks)
    requires At(text, i, "-") && OperandAt(text, i)
    ensures Run(text, i, s) == Run(text, i + 1, s.PushOp(NEGATION))
  {
    assert text[i] == text[i..i + 1][0] == '-';
    assert Round(text, i, s) == On(i + 1, s.PushOp(NEGATION));
  }

  lemma ReadOpen(text: string, i: nat, s: Stacks)
    requires At(text, i, "(")
    ensures Run(text, i, s) == Run(text, i + 1, s.PushOp('('))
  {
    assert text[i] == text[i..i + 1][0] == '(';
    assert Round(text, i, s) == On(i + 1, s.PushOp('('));
  }

  lemma ReadClose(text: string, i: nat, s: Stacks)
    requires At(text, i, ")")
    ensures Run(text, i, s) == Then(Close(s), text, i + 1)
  {
    assert text[i] == text[i..i + 1][0] == ')';
    assert Round(text, i, s) == match Close(s) case Fail(under) => Stuck(under) case Go(s1) => On(i + 1, s1);
  }

  lemma RoundOp(text: string, i: nat, op: char, s: Stacks)
    requires At(text, i, [op]) && IsOperator(op) && i > 0 && EndsOperand(text[i - 1])
    ensures Round(text, i, s) == match ReduceFor(s, Precedence(op)) case Fail(under) => Stuck(under) case Go(s1) => On(i + 1, s1.PushOp(op))
  {
    hide ReduceFor, Close, ReadNumber;
    assert text[i] == text[i..i + 1][0] == op;
  }

  /** A binary operator behind an operand. */
  lemma ReadOp(text: string, i: nat, op: char, s: Stacks)
    requires At(text, i, [op]) && IsOperator(op) && i > 0 && EndsOperand(text[i - 1])
    ensures Run(text, i, s) == match ReduceFor(s, Precedence(op)) case Fail(under) => Fail(under) case Go(s1) => Run(text, i + 1, s1.PushOp(op))
  {
    hide Round, ReduceFor;
    RoundOp(text, i, op, s);
  }

  lemma ReadNumberAt(text: string, i: nat, lit: string, s: Stacks)
    requires At(text, i, lit) && GoodLit(lit) && EndAt(text, i + |lit|)
    ensures Run(text, i, s) == Run(text, i + |lit|, s.PushVal(LitValue(lit)))
  {
    ReadLit(text, i, lit);
    assert Round(text, i, s) == On(i + |lit|, s.PushVal(LitValue(lit)));
  }

  /** Lexing: reading the text of `e` takes the machine to `After(e, s)`. */
  lemma {:induction false} RunReads(text: string, e: Expr, i: nat, s: Stacks)
    requires Grouped(e) && Closed(e) && At(text, i, Text(e))
    requires OperandAt(text, i) && EndAt(text, i + |Text(e)|)
    ensures Run(text, i, s) == Then(After(e, s), text, i + |Text(e)|)
    decreases e, 1
  {
    hide Run, Close, ReduceFor;
    match e
    case Lit(t) => ReadNumberAt(text, i, t, s);
    case Neg(e1) => RunReadsNeg(text, e, i, s);
    case Paren(e1) => RunReadsParen(text, e1, i, s);
    case Bin(op, l, r) => RunReadsBin(text, e, i, s);
    case Juxt(l, e1) => RunReadsJuxt(text, e, i, s);
  }

  /** Where the parts of `l op r` stand. */
  lemma BinParts(text: string, e: Expr, i: nat)
    requires e.Bin? && Grouped(e) && At(text, i, Text(e))
    ensures var j := i + |Text(e.l)|;
      && i <= j < j + 1 + |Text(e.r)| == i + |Text(e)| <= |text|
      && At(text, i, Text(e.l)) && At(text, j, [e.op]) && At(text, j + 1, Text(e.r))
      && text[j] == e.op && j > 0 && EndsOperand(text[j - 1])
  {
    GroupedFormed(e.l);
    TextEnds(e.l);
    assert Text(e) == Text(e.l) + [e.op] + Text(e.r);
    hide Text, Grouped, Formed, EndsOperand;
    var l, r := Text(e.l), Text(e.r);
    ThreeAt(text, i, l, [e.op], r);
    LastAt(text, i, l);
    LastAt(text, i + |l|, [e.op]);
  }

  lemma ThreeAt(s: string, i: nat, a: string, b: string, c: string)
    requires At(s, i, a + b + c)
    ensures At(s, i, a) && At(s, i + |a|, b) && At(s, i + |a| + |b|, c) && i + |a| + |b| + |c| <= |s|
  {
    assert i + |a + b + c| <= |s|;
    hide At;
    AtSplit(s, i, a + b, c);
    AtSplit(s, i, a, b);
  }

  lemma FirstAt(s: string, i: nat, a: string)
    requires At(s, i, a) && a != ""
    ensures i + |a| <= |s| && s[i] == a[0]
  {
    assert s[i..i + |a|][0] == s[i];
  }

  /** The last character of a part. */
  lemma LastAt(s: string, i: nat, a: string)
    requires At(s, i, a) && a != ""
    ensures i + |a| <= |s| && s[i + |a| - 1] == a[|a| - 1]
  {
    assert s[i..i + |a|][|a| - 1] == s[i + |a| - 1];
  }

  lemma {:induction false} RunReadsNeg(text: string, e: Expr, i: nat, s: Stacks)
    requires e.Neg? && Grouped(e) && Closed(e) && At(text, i, Text(e))
    requires OperandAt(text, i) && EndAt(text, i + |Text(e)|)
    ensures Run(text, i, s) == Then(After(e, s), text, i + |Text(e)|)
    decreases e, 0
  {
    hide Run, After, Text, At, EndAt, OperandAt, Grouped, Closed, Then;
    NegParts(text, e, i);
    NegAfter(e, s);
    ReadNeg(text, i, s);
    RunReads(text, e.e, i + 1, s.PushOp(NEGATION));
  }

  lemma NegAfter(e: Expr, s: Stacks)
    requires e.Neg? && Grouped(e) && Closed(e)
    ensures Grouped(e.e) && Closed(e.e) && After(e, s) == After(e.e, s.PushOp(NEGATION))
  {
  }

  lemma NegParts(text: string, e: Expr, i: nat)
    requires e.Neg? && At(text, i, Text(e))
    ensures At(text, i, "-") && At(text, i + 1, Text(e.e)) && |Text(e)| == 1 + |Text(e.e)| && i + |Text(e)| <= |text| && OperandAt(text, i + 1)
  {
    var t := Text(e.e);
    assert Text(e) == "-" + t && i + |Text(e)| <= |text|;
    hide Text;
    AtSplit(text, i, "-", t);
    FirstAt(text, i, "-");
  }

  /** A bracket, wherever it stands. */
  lemma {:induction false} RunReadsParen(text: string, e1: Expr, i: nat, s: Stacks)
    requires Grouped(e1) && Closed(e1) && At(text, i, "(" + Text(e1) + ")")
    ensures Run(text, i, s) == Then(Closing(After(e1, s.PushOp('('))), text, i + |Text(e1)| + 2)
    decreases e1, 2
  {
    hide Run, Close;
    AtSplit(text, i, "(" + Text(e1), ")");
    AtSplit(text, i, "(", Text(e1));
    var j := i + 1 + |Text(e1)|;
    assert text[i] == text[i..i + 1][0] && text[j] == text[j..j + 1][0];
    ReadOpen(text, i, s);
    RunReads(text, e1, i + 1, s.PushOp('('));
    match After(e1, s.PushOp('('))
    case Fail(_) =>
    case Go(s1) => ReadClose(text, j, s1);
  }

  lemma {:induction false} RunReadsJuxt(text: string, e: Expr, i: nat, s: Stacks)
    requires e.Juxt? && Grouped(e) && Closed(e) && At(text, i, Text(e)) && OperandAt(text, i)
    ensures Run(text, i, s) == Then(After(e, s), text, i + |Text(e)|)
    decreases e, 0
  {
    hide Run, Close, After, Text, At, EndAt, Grouped, Closed, Closing;
    var j := i + |Text(e.l)|;
    JuxtParts(text, e, i);
    JuxtIs(e, s);
    RunReads(text, e.l, i, s);
    match After(e.l, s)
    case Fail(_) =>
    case Go(s1) => RunReadsParen(text, e.e, j, s1);
  }

  lemma JuxtIs(e: Expr, s: Stacks)
    requires e.Juxt? && Grouped(e) && Closed(e)
    ensures Grouped(e.l) && Closed(e.l) && Grouped(e.e) && Closed(e.e)
    ensures After(e, s) == match After(e.l, s) case Fail(under) => Fail(under) case Go(s1) => Closing(After(e.e, s1.PushOp('(')))
  {
    hide Closing;
  }

  lemma JuxtParts(text: string, e: Expr, i: nat)
    requires e.Juxt? && At(text, i, Text(e))
    ensures var j := i + |Text(e.l)|;
      && At(text, i, Text(e.l)) && At(text, j, "(" + Text(e.e) + ")") && |Text(e)| == |Text(e.l)| + |Text(e.e)| + 2
      && i + |Text(e)| <= |text| && EndAt(text, j)
  {
    var l, bracket := Text(e.l), "(" + Text(e.e) + ")";
    assert Text(e) == l + bracket && i + |Text(e)| <= |text|;
    hide Text;
    AtSplit(text, i, l, bracket);
    FirstAt(text, i + |l|, bracket);
  }

  lemma {:induction false} RunReadsBin(text: string, e: Expr, i: nat, s: Stacks)
    requires e.Bin? && Grouped(e) && Closed(e) && At(text, i, Text(e))
    requires OperandAt(text, i) && EndAt(text, i + |Text(e)|)
    ensures Run(text, i, s) == Then(After(e, s), text, i + |Text(e)|)
    decreases e, 0
  {
    hide Run, ReduceFor;
    BinParts(text, e, i);
    var j := i + |Text(e.l)|;
    RunReads(text, e.l, i, s);
    match After(e.l, s)
    case Fail(_) =>
    case Go(s1) =>
      ReadOp(text, j, e.op, s1);
      match ReduceFor(s1, Precedence(e.op))
      case Fail(_) =>
      case Go(s2) => RunReads(text, e.r, j + 1, s2.PushOp(e.op));
  }

  // ----- what the pending operators come to

  /** `n` reductions. */
  function Drain(s: Stacks, n: nat): Step
    decreases n
  {
    if n == 0 then Go(s)
    else
      match Reduce(s)
      case Fail(under) => Fail(under)
      case Go(s1) => Drain(s1, n - 1)
  }

  lemma {:induction false} DrainMore(s: Stacks, n: nat)
    requires n < |s.ops|
    ensures Drain(s, n + 1) == (match Drain(s, n) case Fail(under) => Fail(under) case Go(s1) => Reduce(s1))
    ensures Drain(s, n).Go? ==> Drain(s, n).s.ops == s.ops[..|s.ops| - n]
    decreases n
  {
    hide Reduce;
    if n > 0 && Reduce(s).Go? { DrainMore(Reduce(s).s, n - 1); }
  }

  lemma ReduceNeg(s: Stacks, v: int)
    ensures Reduce(s.PushOp(NEGATION).PushVal(v)) == Go(s.PushVal(Wrap(-v)))
  {
    hide Wrap;
    assert (s.ops + [NEGATION])[..|s.ops|] == s.ops && (s.vals + [v])[..|s.vals|] == s.vals;
  }

  lemma ReduceBin(s: Stacks, a: int, op: char, b: int)
    requires IsOperator(op)
    ensures Reduce(s.PushVal(a).PushOp(op).PushVal(b)) == match Apply(a, b, op) case None => Fail(s.under) case Some(v) => Go(s.PushVal(v))
  {
    assert (s.ops + [op])[..|s.ops|] == s.ops && (s.vals + [a])[..|s.vals|] == s.vals;
    assert (s.vals + [a] + [b])[..|s.vals| + 1] == s.vals + [a];
  }

  /** `n` operators lie above those of `s` with `op` pushed, so `n + 1` above those of `s`. */
  lemma OneMore(ops: seq<char>, base: seq<char>, op: char, n: nat, prec: nat)
    requires |ops| == |base| + 1 + n && ops[..|base| + 1] == base + [op]
    requires Tight(ops, n, prec) && Precedence(op) >= prec
    ensures ops[..|base|] == base && Tight(ops, n + 1, prec)
  {
    assert ops[..|base|] == ops[..|base| + 1][..|base|];
    assert ops[|base|] == ops[..|base| + 1][|base|] == op;
  }

  /** The last `n` operators bind at least as tightly as `prec`. */
  predicate Tight(ops: seq<char>, n: nat, prec: nat)
    requires n <= |ops|
  {
    forall k :: |ops| - n <= k < |ops| ==> Precedence(ops[k]) >= prec
  }

  lemma {:induction false} ReduceForDrains(s: Stacks, n: nat, prec: nat)
    requires n <= |s.ops| && Tight(s.ops, n, prec) && (n < |s.ops| ==> Precedence(s.ops[|s.ops| - n - 1]) < prec)
    ensures ReduceFor(s, prec) == Drain(s, n)
    decreases n
  {
    hide Reduce;
    if n > 0 && Reduce(s).Go? { ReduceForDrains(Reduce(s).s, n - 1, prec); }
  }

  lemma {:induction false} CloseDrains(s: Stacks, n: nat)
    requires n < |s.ops| && Tight(s.ops, n, 1) && s.ops[|s.ops| - n - 1] == '('
    ensures Close(s) == (match Drain(s, n) case Fail(under) => Fail(under) case Go(s1) => Go(s1.DropOp()))
    decreases n
  {
    hide Reduce;
    if n > 0 && Reduce(s).Go? { CloseDrains(Reduce(s).s, n - 1); }
  }

  lemma {:induction false} ReduceAllDrains(s: Stacks)
    ensures ReduceAll(s) == Drain(s, |s.ops|)
    decreases |s.ops|
  {
    hide Reduce;
    if s.ops != [] && Reduce(s).Go? { ReduceAllDrains(Reduce(s).s); }
  }

  function PushVals(s: Stacks, vs: seq<int>): Stacks {
    s.(vals := s.vals + vs)
  }

  /** Nothing pending before `e` may be reduced by an operator of `e`. */
  predicate Room(s: Stacks, e: Expr) {
    e.Bin? ==> s.ops == [] || Precedence(s.TopOp()) < Precedence(e.op)
  }

  /** The state `r` behind `e` still owes `n` reductions; they all bind as tightly as `e`, pop nothing
      of the operands of `s`, and put those of `e` on top, or fail if it has none. */
  ghost predicate Owes(r: Step, n: nat, e: Expr, s: Stacks)
    requires Grouped(e) && Closed(e)
  {
    match r
    case Fail(under) => Operands(e) == None && under == s.under
    case Go(s1) =>
      && |s1.ops| == |s.ops| + n && s1.ops[..|s.ops|] == s.ops && Tight(s1.ops, n, Tightness(e))
      && Drain(s1, n) == match Operands(e) case None => Fail(s.under) case Some(vs) => Go(PushVals(s, vs))
  }

  function Owed(r: Step, s: Stacks): nat {
    if r.Go? && |r.s.ops| >= |s.ops| then |r.s.ops| - |s.ops| else 0
  }

  lemma ReduceNegTop(s: Stacks, vs: seq<int>)
    requires vs != []
    ensures Reduce(PushVals(s.PushOp(NEGATION), vs)) == Go(PushVals(s, NegateTop(vs)))
  {
    hide Wrap;
    var s1 := PushVals(s, vs[..|vs| - 1]);
    assert s1.vals + [vs[|vs| - 1]] == s.vals + vs;
    ReduceNeg(s1, vs[|vs| - 1]);
    assert s.vals + NegateTop(vs) == s1.vals + [Wrap(-vs[|vs| - 1])];
  }

  lemma LastTwo(vs: seq<int>)
    requires |vs| >= 2
    ensures vs == vs[..|vs| - 2] + [vs[|vs| - 2]] + [vs[|vs| - 1]]
  {
  }

  /** The operator takes the last two operands above those of `s`. */
  lemma ReduceTop(s: Stacks, op: char, a: seq<int>, b: seq<int>)
    requires IsOperator(op) && a != [] && b != []
    ensures Reduce(PushVals(PushVals(s, a).PushOp(op), b)) == match ApplyTop(a + b, op) case None => Fail(s.under) case Some(vs) => Go(PushVals(s, vs))
  {
    hide Apply, Reduce, IsOperator;
    var vs := a + b;
    var x, y, rest := vs[|vs| - 2], vs[|vs| - 1], vs[..|vs| - 2];
    LastTwo(vs);
    var s1 := PushVals(s, rest);
    assert s.vals + a + b == s.vals + vs == s1.vals + [x] + [y];
    assert PushVals(PushVals(s, a).PushOp(op), b) == s1.PushVal(x).PushOp(op).PushVal(y);
    ReduceBin(s1, x, op, y);
    match Apply(x, y, op)
    case None =>
    case Some(v) => assert s.vals + (rest + [v]) == s1.vals + [v];
  }

  /** Reading a tree leaves the machine owing exactly the tree's operands. */
  lemma {:induction false} AfterOwes(e: Expr, s: Stacks)
    requires Grouped(e) && Closed(e) && Room(s, e)
    ensures Owes(After(e, s), Owed(After(e, s), s), e, s)
    decreases e, 2
  {
    match e
    case Lit(text) =>
    case Neg(e1) => NegOwes(e, s);
    case Paren(e1) => ParenOwes(e, s);
    case Bin(op, l, r) => BinOwes(e, s);
    case Juxt(l, e1) => JuxtOwes(e, s);
  }

  lemma {:induction false} NegOwes(e: Expr, s: Stacks)
    requires e.Neg? && Grouped(e) && Closed(e)
    ensures Owes(After(e, s), Owed(After(e, s), s), e, s)
    decreases e, 1
  {
    hide Reduce, Drain;
    var s1 := s.PushOp(NEGATION);
    AfterOwes(e.e, s1);
    match After(e.e, s1)
    case Fail(_) =>
    case Go(s2) =>
      var n := |s2.ops| - |s1.ops|;
      DrainMore(s2, n);
      assert Tight(s2.ops, n, 3);
      OneMore(s2.ops, s.ops, NEGATION, n, 3);
      match Operands(e.e)
      case None =>
      case Some(vs) => ReduceNegTop(s, vs);
  }

  /** Nothing is pending: the operands are there. */
  function Settled(vs: Option<seq<int>>, s: Stacks): Step {
    match vs
    case None => Fail(s.under)
    case Some(a) => Go(PushVals(s, a))
  }

  lemma SettledOwes(r: Step, e: Expr, s: Stacks)
    requires Grouped(e) && Closed(e) && r == Settled(Operands(e), s)
    ensures Owes(r, Owed(r, s), e, s)
  {
    hide Operands, Grouped, Closed, Drain;
    if r.Go? { DrainNone(r.s); }
  }

  /** No operator binds tighter than the minus sign. */
  lemma OwesSettled(r: Step, e: Expr, s: Stacks)
    requires Grouped(e) && Closed(e) && Tightness(e) >= 4 && Owes(r, Owed(r, s), e, s)
    ensures r == Settled(Operands(e), s)
  {
    hide Operands, Grouped, Closed, Drain;
    if r.Go? {
      var n := Owed(r, s);
      assert n > 0 ==> Precedence(r.s.ops[|r.s.ops| - 1]) >= 4;
      DrainNone(r.s);
    }
  }

  /** A bracket pays off what it owes at once. */
  lemma {:induction false} BracketPays(e: Expr, s: Stacks)
    requires Grouped(e) && Closed(e)
    ensures Closing(After(e, s.PushOp('('))) == Settled(Operands(e), s)
    decreases e, 3
  {
    AfterOwes(e, s.PushOp('('));
    TightnessPositive(e);
    hide After, Closing;
    ClosingPays(After(e, s.PushOp('(')), e, s);
  }

  lemma ClosingPays(r: Step, e: Expr, s: Stacks)
    requires Grouped(e) && Closed(e) && Tightness(e) >= 1
    requires Owes(r, Owed(r, s.PushOp('(')), e, s.PushOp('('))
    ensures Closing(r) == Settled(Operands(e), s)
  {
    hide Operands, Grouped, Closed, Tightness, Close, Drain, Precedence;
    var s1 := s.PushOp('(');
    if r.Go? {
      var s2, n := r.s, |r.s.ops| - |s1.ops|;
      OpenBelow(s2.ops, s.ops, n);
      TightOne(s2.ops, n, Tightness(e));
      CloseDrains(s2, n);
      if Operands(e).Some? { DropOpen(s, Operands(e).value); }
    }
  }

  lemma OpenBelow(ops: seq<char>, base: seq<char>, n: nat)
    requires |ops| == |base| + 1 + n && ops[..|base| + 1] == base + ['(']
    ensures ops[|ops| - n - 1] == '('
  {
    assert ops[..|base| + 1][|base|] == ops[|base|];
  }

  lemma TightOne(ops: seq<char>, n: nat, prec: nat)
    requires n <= |ops| && Tight(ops, n, prec) && prec >= 1
    ensures Tight(ops, n, 1)
  {
    hide Precedence;
  }

  lemma DropOpen(s: Stacks, vs: seq<int>)
    ensures PushVals(s.PushOp('('), vs).DropOp() == PushVals(s, vs)
  {
    assert (s.ops + ['('])[..|s.ops|] == s.ops;
  }

  lemma {:induction false} ParenOwes(e: Expr, s: Stacks)
    requires e.Paren? && Grouped(e) && Closed(e)
    ensures Owes(After(e, s), Owed(After(e, s), s), e, s)
    decreases e, 1
  {
    BracketPays(e.e, s);
    hide Owes, Closing;
    SettledOwes(After(e, s), e, s);
  }

  lemma {:induction false} JuxtOwes(e: Expr, s: Stacks)
    requires e.Juxt? && Grouped(e) && Closed(e)
    ensures Owes(After(e, s), Owed(After(e, s), s), e, s)
    decreases e, 1
  {
    hide Owes, Closing;
    AfterOwes(e.l, s);
    OwesSettled(After(e.l, s), e.l, s);
    JuxtAfter(e, s);
    SettledOwes(After(e, s), e, s);
  }

  lemma {:induction false} JuxtAfter(e: Expr, s: Stacks)
    requires e.Juxt? && Grouped(e) && Closed(e) && After(e.l, s) == Settled(Operands(e.l), s)
    ensures After(e, s) == Settled(Operands(e), s)
    decreases e, 0
  {
    hide Closing;
    match Operands(e.l)
    case None =>
    case Some(a) =>
      BracketPays(e.e, PushVals(s, a));
      match Operands(e.e)
      case None =>
      case Some(b) => assert s.vals + (a + b) == s.vals + a + b;
  }

  lemma DrainNone(s: Stacks)
    ensures Drain(s, 0) == Go(s)
  {
  }

  lemma TightnessPositive(e: Expr)
    requires Grouped(e)
    ensures Tightness(e) >= 1
  {
  }

  lemma {:induction false} BinOwes(e: Expr, s: Stacks)
    requires e.Bin? && Grouped(e) && Closed(e) && Room(s, e)
    ensures Owes(After(e, s), Owed(After(e, s), s), e, s)
    decreases e, 1
  {
    AfterOwes(e.l, s);
    LeftSettles(e, s);
    match Operands(e.l)
    case None =>
      hide Owes, ReduceFor;
      FailOwes(After(e, s), e, s);
    case Some(a) =>
      hide Owes, ReduceFor;
      RightOwes(e, s, a);
  }

  lemma FailOwes(r: Step, e: Expr, s: Stacks)
    requires Grouped(e) && Closed(e) && r == Fail(s.under) && Operands(e) == None
    ensures Owes(r, Owed(r, s), e, s)
  {
  }

  /** The operator makes the machine pay for its left operand. */
  lemma LeftSettles(e: Expr, s: Stacks)
    requires e.Bin? && Grouped(e) && Closed(e) && Room(s, e) && Owes(After(e.l, s), Owed(After(e.l, s), s), e.l, s)
    ensures ReduceAfter(After(e.l, s), Precedence(e.op)) == Settled(Operands(e.l), s)
  {
    var r, p := After(e.l, s), Precedence(e.op);
    assert Tightness(e.l) >= p;
    assert s.ops != [] ==> Precedence(s.ops[|s.ops| - 1]) < p;
    hide Room, Drain, Operands, Grouped, Closed, After, Tightness, ReduceFor, Precedence;
    if r.Go? {
      var s1, n := r.s, |r.s.ops| - |s.ops|;
      assert n < |s1.ops| ==> s1.ops[|s1.ops| - n - 1] == s1.ops[..|s.ops|][|s.ops| - 1];
      ReduceForDrains(s1, n, p);
    }
  }

  lemma {:induction false} RightOwes(e: Expr, s: Stacks, a: seq<int>)
    requires e.Bin? && Grouped(e) && Closed(e) && Room(s, e) && Operands(e.l) == Some(a)
    ensures var r := After(e.r, PushVals(s, a).PushOp(e.op)); Owes(r, Owed(r, s), e, s)
    decreases e, 0
  {
    hide Reduce, Drain, ApplyTop;
    var s2 := PushVals(s, a).PushOp(e.op);
    AfterOwes(e.r, s2);
    match After(e.r, s2)
    case Fail(_) =>
    case Go(s3) =>
      var n := |s3.ops| - |s2.ops|;
      DrainMore(s3, n);
      assert Tight(s3.ops, n, Precedence(e.op));
      OneMore(s3.ops, s.ops, e.op, n, Precedence(e.op));
      match Operands(e.r)
      case None =>
      case Some(b) => ReduceTop(s, e.op, a, b);
  }

  /** The result of a text that leaves these operands: the last one. */
  function Outcome(vs: Option<seq<int>>): Result
    requires vs.Some? ==> vs.value != []
  {
    match vs
    case None => Error(false)
    case Some(a) => Value(a[|a| - 1], |a|, false)
  }

  /** What `evaluate` returns on the text of any tree, implied multiplications left in it or not: the
      last of the operands it leaves, which are one more than the implied multiplications, or an error
      exactly if a division made is by zero. No empty stack is popped either way. */
  lemma EvaluateLeaves(e: Expr)
    requires Canonical(e) && Closed(e)
    ensures Grouped(Regroup(e)) && Closed(Regroup(e)) && Joints(Regroup(e)) == Joints(e)
    ensures Evaluate(Text(e)) == Outcome(Operands(Regroup(e)))
  {
    hide Reduce, Run, ReduceAll, Text, InvalidAt, Tight, Clean, After, Regroup, Operands, Grouped, Closed, Canonical, Level, Tightness, Joints;
    var text, g := Text(e), Regroup(e);
    TextNotRefused(e);
    RegroupGroups(e);
    RegroupJoints(e);
    assert text[0..|text|] == text;
    RunReads(text, g, 0, EMPTY);
    AfterOwes(g, EMPTY);
    match After(g, EMPTY)
    case Fail(_) =>
    case Go(s) =>
      RunEnds(text, s);
      ReduceAllDrains(s);
      match Operands(g)
      case None =>
      case Some(vs) => assert PushVals(EMPTY, vs).vals == vs;
  }

  /** The value as the only operand left, or the error of a division by zero; no empty stack popped. */
  function Alone(v: Option<int>): Result {
    match v
    case None => Error(false)
    case Some(x) => Value(x, 1, false)
  }

  /** Shunting-yard correctness: on the text of any tree without implied multiplications, `evaluate`
      computes what the tree stands for, sets an error exactly when some division is by zero, ends with
      exactly one operand, and pops no empty stack, division by zero or not. */
  lemma EvaluateIsValue(e: Expr)
    requires Canonical(e) && Plain(e)
    ensures Evaluate(Text(e)) == Alone(ValueOf(e, map[]))
    ensures forall v :: Denotes(e, map[], v) <==> Evaluate(Text(e)) == Alone(v)
  {
    hide Evaluate, Text, Operands, ValueOf, Denotes;
    PlainOperands(e);
    EvaluateLeaves(e);
    OnlyValue(e, map[]);
  }

  lemma OnlyValue(e: Expr, env: map<string, int>)
    requires Canonical(e)
    ensures forall v :: Denotes(e, env, v) <==> v == ValueOf(e, env)
  {
    hide Denotes, ValueOf;
    ValueDenotes(e, env);
    forall v | Denotes(e, env, v) ensures v == ValueOf(e, env) { DenotesOne(e, env, v, ValueOf(e, env)); }
  }

  lemma RunEnds(text: string, s: Stacks)
    ensures Run(text, |text|, s) == Go(s)
  {
  }
}
