/** The text surgery in front of the evaluator: variables are replaced by their printed values and
    implied multiplications are made explicit (`expr.c`, `convvar.c`, `strext.c`). */
module ExprSub {
  import opened Arithmetic
  import opened Longs
  import opened ExprMachine
  import opened ExprTree
  import opened StrExt

  // ----- printing a variable's value

  function HexDigit(d: nat): (c: char)
    requires d < 16
    ensures IsXDigit(c) && DigitOf(c) == d
  {
    if d < 10 then '0' + d as char else 'a' + (d - 10) as char
  }

  function HexText(n: nat): (s: string)
    ensures s != "" && AllXDigits(s)
  {
    if n < 16 then [HexDigit(n)] else HexText(n / 16) + [HexDigit(n % 16)]
  }

  /** "%#llx": no prefix on zero. */
  function Magnitude(n: nat): string {
    if n == 0 then "0" else "0x" + HexText(n)
  }

  /** convvar_strval, of an integer variable. */
  function ValueText(v: int): string {
    if v < 0 then "-" + Magnitude(-v) else Magnitude(v)
  }

  lemma {:induction false} HexTextValue(n: nat)
    ensures DigitsValue(HexText(n), 16) == n
  {
    var s := HexText(n);
    if n < 16 {
      assert DigitsValue(s[..0], 16) == 0;
    } else {
      HexTextValue(n / 16);
      assert s[..|s| - 1] == HexText(n / 16);
    }
  }

  lemma {:induction false} HexTextLower(n: nat)
    ensures forall k :: 0 <= k < |HexText(n)| ==> HexText(n)[k] in "0123456789abcdef"
    ensures n > 0 ==> HexText(n)[0] != '0'
  {
    DigitLower(n % 16);
    if n >= 16 { HexTextLower(n / 16); }
  }

  lemma DigitLower(d: nat)
    requires d < 16
    ensures HexDigit(d) == "0123456789abcdef"[d]
  {
  }

  /** The printed form: a sign if negative, and the magnitude in lower-case hexadecimal without leading
      zeros behind "0x", but for zero. */
  lemma ValueTextIs(v: int) returns (h: string)
    ensures ValueText(v) == (if v < 0 then "-" else "") + (if v == 0 then "0" else "0x" + h)
    ensures v != 0 ==> h != "" && h[0] != '0' && (forall k :: 0 <= k < |h| ==> h[k] in "0123456789abcdef") && Positional(h, 16) == Size(v)
  {
    h := HexText(if v < 0 then -v else v);
    HexTextLower(if v < 0 then -v else v);
    HexTextValue(if v < 0 then -v else v);
    DigitsArePositional(h, 16);
  }

  lemma MagnitudeReads(n: nat)
    ensures GoodLit(Magnitude(n)) && LitValue(Magnitude(n)) == if n > LONG_MAX then LONG_MAX else n
  {
    if n > 0 {
      HexTextValue(n);
      assert Magnitude(n)[2..] == HexText(n);
    } else {
      assert DigitsValue("0"[..0], 10) == 0;
    }
  }

  /** The tree that a variable's printed value reads as. */
  function ValueTree(v: int): Expr {
    if v < 0 then Neg(Lit(Magnitude(-v))) else Lit(Magnitude(v))
  }

  /** Printing a long and reading it back restores it unless it is LONG_MIN, whose magnitude
      saturates. */
  lemma PrintedValueIff(v: int)
    requires LONG_MIN <= v <= LONG_MAX
    ensures Text(ValueTree(v)) == ValueText(v) && Canonical(ValueTree(v)) && Plain(ValueTree(v))
    ensures ValueOf(ValueTree(v), map[]) == Some(v) <==> v != LONG_MIN
  {
    MagnitudeReads(if v < 0 then -v else v);
  }

  // ----- substitution

  /** What may be spliced in: a C string that names no further variable. */
  type PlainText = s: string | '$' !in s && '\0' !in s witness ""

  /** The integer variables, and the printed registers of the focused thread if there is one. */
  datatype Env = Env(vars: map<string, int>, regs: Option<map<string, PlainText>>)

  /** is_end_of_number. */
  predicate OperandEndsAt(s: string, i: nat)
    requires i <= |s|
  {
    (!IsNeg(s, i) && IsOperator(CharAt(s, i))) || CharAt(s, i) == '(' || CharAt(s, i) == ')'
  }

  /** find_end_of_operand. */
  function OperandEnd(s: string, i: nat): (j: nat)
    requires i <= |s|
    ensures i <= j <= |s|
    decreases |s| - i
  {
    if !OperandEndsAt(s, i) && i < |s| then OperandEnd(s, i + 1) else i
  }

  /** What replaces a name; None if it is no variable and there is no focused thread. A name that is
      no register either is replaced by nothing. */
  function Splice(name: string, env: Env): (t: Option<PlainText>)
    ensures name in env.vars ==> t == Some(ValueText(env.vars[name]))
  {
    if name in env.vars then ValueTextPlain(env.vars[name]); Some(ValueText(env.vars[name]))
    else
      match env.regs
      case None => None
      case Some(regs) => Some(if name in regs then regs[name] else "")
  }

  lemma ValueTextPlain(v: int)
    ensures '$' !in ValueText(v) && '\0' !in ValueText(v)
  {
    assert AllXDigits(HexText(if v < 0 then -v else v));
  }

  function Dollars(s: string, i: nat): nat
    decreases |s| - i
  {
    if i >= |s| then 0 else (if s[i] == '$' then 1 else 0) + Dollars(s, i + 1)
  }

  function Replace(s: string, i: nat, j: nat, t: string): string
    requires i <= j <= |s|
  {
    s[..i] + t + s[j..]
  }

  lemma {:induction false} DollarsSuffix(s: string, i: nat, t: string, j: nat)
    requires i <= |s| && j <= |t| && s[i..] == t[j..]
    ensures Dollars(s, i) == Dollars(t, j)
    decreases |s| - i
  {
    assert |s| - i == |s[i..]| == |t[j..]| == |t| - j;
    if i < |s| {
      assert s[i] == s[i..][0] == t[j..][0] == t[j];
      assert s[i + 1..] == s[i..][1..] == t[j..][1..] == t[j + 1..];
      DollarsSuffix(s, i + 1, t, j + 1);
    }
  }

  lemma {:induction false} DollarsSkip(s: string, i: nat, j: nat)
    requires i <= j <= |s|
    ensures Dollars(s, i) >= Dollars(s, j)
    ensures (forall k :: i <= k < j ==> s[k] != '$') ==> Dollars(s, i) == Dollars(s, j)
    decreases j - i
  {
    if i < j { DollarsSkip(s, i + 1, j); }
  }

  /** A replacement takes one '$' away from the text behind `i`. */
  lemma ReplaceSpends(s: string, i: nat, j: nat, t: PlainText)
    requires i < j <= |s| && s[i] == '$'
    ensures Dollars(Replace(s, i, j, t), i + 1) < Dollars(s, i)
  {
    var r := Replace(s, i, j, t);
    DollarsSkip(s, i + 1, j);
    assert r[i + |t|..] == s[j..];
    DollarsSuffix(r, i + |t|, s, j);
    if t == "" {
      if i < |r| { DollarsSkip(r, i, i + 1); }
    } else {
      forall k | i + 1 <= k < i + |t| ensures r[k] != '$' { assert r[k] == t[k - i]; }
      DollarsSkip(r, i + 1, i + |t|);
    }
  }

  datatype Subbed = NoThread | Done(text: string)

  /** sub_conv_vars from index `i` on. It terminates: a replacement spends a '$'. */
  function Sub(s: string, i: nat, env: Env): Subbed
    decreases Dollars(s, i), |s| - i
  {
    if i >= |s| then Done(s)
    else if s[i] != '$' then Sub(s, i + 1, env)
    else
      var j := OperandEnd(s, i);
      match Splice(s[i..j], env)
      case None => NoThread
      case Some(t) => ReplaceSpends(s, i, j, t); Sub(Replace(s, i, j, t), i + 1, env)
  }

  // ----- substitution on trees

  function Subst(e: Expr, vars: map<string, int>): Expr {
    match e
    case Lit(_) => e
    case Var(name) => if name in vars then ValueTree(vars[name]) else e
    case Neg(e1) => Neg(Subst(e1, vars))
    case Bin(op, l, r) => Bin(op, Subst(l, vars), Subst(r, vars))
    case Juxt(l, e1) => Juxt(Subst(l, vars), Subst(e1, vars))
    case Paren(e1) => Paren(Subst(e1, vars))
  }

  /** Every variable of `e` is known and its value is one that survives printing. */
  predicate Bound(e: Expr, vars: map<string, int>) {
    match e
    case Lit(_) => true
    case Var(name) => name in vars && LONG_MIN < vars[name] <= LONG_MAX
    case Neg(e1) => Bound(e1, vars)
    case Bin(_, l, r) => Bound(l, vars) && Bound(r, vars)
    case Juxt(l, e1) => Bound(l, vars) && Bound(e1, vars)
    case Paren(e1) => Bound(e1, vars)
  }

  lemma {:induction false} SubstCanonical(e: Expr, vars: map<string, int>)
    requires Canonical(e) && Bound(e, vars)
    ensures var e1 := Subst(e, vars); Canonical(e1) && Closed(e1) && Level(e1) >= (if Level(e) < 3 then Level(e) else 3)
  {
    match e
    case Lit(_) =>
    case Var(name) => PrintedValueIff(vars[name]);
    case Neg(e1) => SubstCanonical(e1, vars);
    case Bin(_, l, r) => SubstCanonical(l, vars); SubstCanonical(r, vars);
    case Juxt(l, e1) => SubstCanonical(l, vars); SubstCanonical(e1, vars);
    case Paren(e1) => SubstCanonical(e1, vars);
  }

  /** Splicing values in as text, signs included, does not disturb the value of the tree. */
  lemma {:induction false} SubstValue(e: Expr, vars: map<string, int>)
    requires Canonical(e) && Bound(e, vars)
    ensures Canonical(Subst(e, vars)) && ValueOf(Subst(e, vars), map[]) == ValueOf(e, vars)
  {
    SubstCanonical(e, vars);
    match e
    case Lit(_) =>
    case Var(name) => PrintedValueIff(vars[name]);
    case Neg(e1) => SubstValue(e1, vars);
    case Bin(_, l, r) => SubstValue(l, vars); SubstValue(r, vars);
    case Juxt(l, e1) => SubstValue(l, vars); SubstValue(e1, vars);
    case Paren(e1) => SubstValue(e1, vars);
  }

  lemma {:induction false} SubSkips(s: string, i: nat, j: nat, env: Env)
    requires i <= j <= |s| && forall k :: i <= k < j ==> s[k] != '$'
    ensures Sub(s, i, env) == Sub(s, j, env)
    decreases j - i
  {
    if i < j { SubSkips(s, i + 1, j, env); }
  }

  /** Skipping a piece without a '$'. */
  lemma SubSkipsPiece(pre: string, t: PlainText, post: string, env: Env)
    ensures Sub(pre + t + post, |pre|, env) == Sub(pre + t + post, |pre + t|, env)
  {
    hide Sub;
    var s := pre + t + post;
    forall k | |pre| <= k < |pre + t| ensures s[k] != '$' { assert s[k] == t[k - |pre|]; }
    SubSkips(s, |pre|, |pre + t|, env);
  }

  /** Text that may follow an operand. */
  predicate Follows(post: string) {
    post == "" || post[0] == '(' || post[0] == ')' || IsOperator(post[0])
  }

  lemma {:induction false} OperandEndAt(s: string, i: nat, j: nat)
    requires i <= j <= |s| && (forall k :: i <= k < j ==> IsNameChar(s[k]))
    requires j == |s| || OperandEndsAt(s, j)
    ensures OperandEnd(s, i) == j
    decreases j - i
  {
    if i < j { OperandEndAt(s, i + 1, j); }
  }

  lemma NameEnds(pre: string, name: string, post: string)
    requires GoodName(name) && Follows(post)
    ensures OperandEnd(pre + name + post, |pre|) == |pre + name|
  {
    var s := pre + name + post;
    var j := |pre + name|;
    forall k | |pre| <= k < j ensures IsNameChar(s[k]) { assert s[k] == name[k - |pre|]; }
    assert s[j - 1] == name[|name| - 1];
    if post != "" { assert s[j] == post[0]; }
    OperandEndAt(s, |pre|, j);
  }

  lemma SubStep(s: string, i: nat, j: nat, t: PlainText, env: Env)
    requires i < j <= |s| && s[i] == '$' && OperandEnd(s, i) == j && Splice(s[i..j], env) == Some(t)
    ensures Sub(s, i, env) == Sub(Replace(s, i, j, t), i + 1, env)
  {
    hide Splice, Dollars, Replace;
  }

  lemma SubVar(pre: string, name: string, post: string, env: Env)
    requires GoodName(name) && Follows(post) && name in env.vars
    ensures var t := ValueText(env.vars[name]); Sub(pre + name + post, |pre|, env) == Sub(pre + t + post, |pre + t|, env)
  {
    hide Sub, ValueText;
    var s := pre + name + post;
    var t := ValueText(env.vars[name]);
    ValueTextPlain(env.vars[name]);
    NameEnds(pre, name, post);
    assert s[|pre|] == name[0];
    assert s[|pre|..|pre + name|] == name;
    assert Replace(s, |pre|, |pre + name|, t) == pre + t + post;
    SubStep(s, |pre|, |pre + name|, t, env);
    ValueTextNotEmpty(env.vars[name]);
    var r := pre + t + post;
    forall k | |pre| + 1 <= k < |pre + t| ensures r[k] != '$' { assert r[k] == t[k - |pre|]; }
    SubSkips(r, |pre| + 1, |pre + t|, env);
  }

  lemma ValueTextNotEmpty(v: int)
    ensures ValueText(v) != ""
  {
  }

  /** Substitution on the text of a tree is substitution on the tree. */
  lemma {:induction false} SubTree(pre: string, e: Expr, post: string, env: Env)
    requires Canonical(e) && Bound(e, env.vars) && Follows(post)
    ensures var t := Text(Subst(e, env.vars)); Sub(pre + Text(e) + post, |pre|, env) == Sub(pre + t + post, |pre + t|, env)
    decreases e, 1
  {
    hide Sub;
    match e
    case Lit(text) =>
      LitPlain(text);
      SubSkipsPiece(pre, text, post, env);
    case Var(name) =>
      PrintedValueIff(env.vars[name]);
      SubVar(pre, name, post, env);
    case Neg(e1) => SubNeg(pre, e1, post, env);
    case Bin(op, l, r) => SubBin(pre, op, l, r, post, env);
    case Juxt(l, e1) => SubJuxt(pre, l, e1, post, env);
    case Paren(e1) => SubParen(pre, e1, post, env);
  }

  lemma LitPlain(text: string)
    requires GoodLit(text)
    ensures '$' !in text && '\0' !in text
  {
    forall k | 0 <= k < |text| ensures text[k] != '$' && text[k] != '\0' {
      if HexPrefix(text, 0) && k >= 2 { assert text[k] == text[2..][k - 2]; }
    }
  }

  lemma {:induction false} SubNeg(pre: string, e1: Expr, post: string, env: Env)
    requires Canonical(e1) && Bound(e1, env.vars) && Follows(post)
    ensures var t := "-" + Text(Subst(e1, env.vars)); Sub(pre + ("-" + Text(e1)) + post, |pre|, env) == Sub(pre + t + post, |pre + t|, env)
    decreases e1, 2
  {
    hide Sub, Text, Subst, Canonical, Bound;
    var t1 := Text(Subst(e1, env.vars));
    SubSkipsPiece(pre, "-", Text(e1) + post, env);
    assert pre + ("-" + Text(e1)) + post == pre + "-" + (Text(e1) + post) == (pre + "-") + Text(e1) + post;
    SubTree(pre + "-", e1, post, env);
    assert pre + ("-" + t1) + post == (pre + "-") + t1 + post;
    assert |pre + ("-" + t1)| == |(pre + "-") + t1|;
  }

  lemma {:induction false} SubParen(pre: string, e1: Expr, post: string, env: Env)
    requires Canonical(e1) && Bound(e1, env.vars)
    ensures var t := "(" + Text(Subst(e1, env.vars)) + ")"; Sub(pre + ("(" + Text(e1) + ")") + post, |pre|, env) == Sub(pre + t + post, |pre + t|, env)
    decreases e1, 2
  {
    hide Sub, Text, Subst, Canonical, Bound;
    var t1 := Text(Subst(e1, env.vars));
    SubSkipsPiece(pre, "(", Text(e1) + ")" + post, env);
    assert pre + ("(" + Text(e1) + ")") + post == pre + "(" + (Text(e1) + ")" + post) == (pre + "(") + Text(e1) + (")" + post);
    SubTree(pre + "(", e1, ")" + post, env);
    SubSkipsPiece(pre + "(" + t1, ")", post, env);
    assert pre + ("(" + t1 + ")") + post == (pre + "(") + t1 + (")" + post) == (pre + "(" + t1) + ")" + post;
    assert |pre + ("(" + t1 + ")")| == |pre + "(" + t1 + ")"|;
  }

  lemma {:induction false} SubBin(pre: string, op: char, l: Expr, r: Expr, post: string, env: Env)
    requires IsOperator(op) && Canonical(l) && Canonical(r) && Bound(l, env.vars) && Bound(r, env.vars) && Follows(post)
    ensures var t := Text(Subst(l, env.vars)) + [op] + Text(Subst(r, env.vars));
      Sub(pre + (Text(l) + [op] + Text(r)) + post, |pre|, env) == Sub(pre + t + post, |pre + t|, env)
    decreases Bin(op, l, r), 0
  {
    hide Sub, Text, Subst, Canonical, Bound;
    var t1, t2 := Text(Subst(l, env.vars)), Text(Subst(r, env.vars));
    assert pre + (Text(l) + [op] + Text(r)) + post == pre + Text(l) + ([op] + Text(r) + post);
    SubTree(pre, l, [op] + Text(r) + post, env);
    assert pre + t1 + ([op] + Text(r) + post) == (pre + t1) + [op] + (Text(r) + post) == (pre + t1 + [op]) + Text(r) + post;
    SubSkipsPiece(pre + t1, [op], Text(r) + post, env);
    SubTree(pre + t1 + [op], r, post, env);
    assert pre + (t1 + [op] + t2) + post == (pre + t1 + [op]) + t2 + post;
    assert |pre + (t1 + [op] + t2)| == |pre + t1 + [op] + t2|;
  }

  lemma {:induction false} SubJuxt(pre: string, l: Expr, e1: Expr, post: string, env: Env)
    requires Canonical(l) && Canonical(e1) && Bound(l, env.vars) && Bound(e1, env.vars)
    ensures var t := Text(Subst(l, env.vars)) + "(" + Text(Subst(e1, env.vars)) + ")";
      Sub(pre + (Text(l) + "(" + Text(e1) + ")") + post, |pre|, env) == Sub(pre + t + post, |pre + t|, env)
    decreases Juxt(l, e1), 0
  {
    hide Sub, Text, Subst, Canonical, Bound;
    var t1, t2 := Text(Subst(l, env.vars)), Text(Subst(e1, env.vars));
    assert pre + (Text(l) + "(" + Text(e1) + ")") + post == pre + Text(l) + (("(" + Text(e1) + ")") + post);
    SubTree(pre, l, ("(" + Text(e1) + ")") + post, env);
    assert pre + t1 + (("(" + Text(e1) + ")") + post) == (pre + t1) + ("(" + Text(e1) + ")") + post;
    SubParen(pre + t1, e1, post, env);
    assert pre + (t1 + "(" + t2 + ")") + post == (pre + t1) + ("(" + t2 + ")") + post;
    assert |pre + (t1 + "(" + t2 + ")")| == |pre + t1 + ("(" + t2 + ")")|;
  }

  /** sub_conv_vars on the text of a tree. */
  lemma SubIsSubst(e: Expr, env: Env)
    requires Canonical(e) && Bound(e, env.vars)
    ensures Sub(Text(e), 0, env) == Done(Text(Subst(e, env.vars)))
  {
    var t := Text(Subst(e, env.vars));
    SubTree("", e, "", env);
    assert "" + Text(e) + "" == Text(e) && "" + t + "" == t;
  }

  // ----- implied multiplication

  /** add_mults from index `i` on. */
  function Spread(s: string, i: nat): string
    decreases |s| - i
  {
    if i >= |s| then s
    else if i >= 1 && s[i] == '(' && !IsOperator(s[i - 1]) && IsDigit(s[i - 1]) then Spread(Replace(s, i, i, "*"), i + 2)
    else Spread(s, i + 1)
  }

  predicate EndsInDigit(s: string) { s != "" && IsDigit(s[|s| - 1]) }

  /** The tree with those multiplications made explicit that follow a decimal digit. */
  function Explicit(e: Expr): Expr {
    match e
    case Neg(e1) => Neg(Explicit(e1))
    case Bin(op, l, r) => Bin(op, Explicit(l), Explicit(r))
    case Juxt(l, e1) => if EndsInDigit(Text(l)) then Bin('*', Explicit(l), Paren(Explicit(e1))) else Juxt(Explicit(l), Explicit(e1))
    case Paren(e1) => Paren(Explicit(e1))
    case _ => e
  }

  /** Every implied multiplication follows a decimal digit. */
  predicate DigitJoined(e: Expr) {
    match e
    case Neg(e1) => DigitJoined(e1)
    case Bin(op, l, r) => DigitJoined(l) && DigitJoined(r)
    case Juxt(l, e1) => EndsInDigit(Text(l)) && DigitJoined(l) && DigitJoined(e1)
    case Paren(e1) => DigitJoined(e1)
    case Var(_) => false
    case Lit(_) => true
  }

  /** Exactly then no implied multiplication is left for the evaluator, which knows none. */
  lemma {:induction false} ExplicitPlainIff(e: Expr)
    ensures Plain(Explicit(e)) <==> DigitJoined(e)
  {
    match e
    case Neg(e1) => ExplicitPlainIff(e1);
    case Bin(_, l, r) => ExplicitPlainIff(l); ExplicitPlainIff(r);
    case Juxt(l, e1) => ExplicitPlainIff(l); ExplicitPlainIff(e1);
    case Paren(e1) => ExplicitPlainIff(e1);
    case _ =>
  }

  /** Explicit multiplications mean what the implied ones do. */
  lemma {:induction false} ExplicitValue(e: Expr, vars: map<string, int>)
    requires Canonical(e)
    ensures var x := Explicit(e); Canonical(x) && Level(x) == Level(e) && ValueOf(x, vars) == ValueOf(e, vars)
    ensures Closed(e) ==> Closed(Explicit(e))
  {
    match e
    case Neg(e1) => ExplicitValue(e1, vars);
    case Bin(_, l, r) => ExplicitValue(l, vars); ExplicitValue(r, vars);
    case Juxt(l, e1) => ExplicitValue(l, vars); ExplicitValue(e1, vars);
    case Paren(e1) => ExplicitValue(e1, vars);
    case _ =>
  }

  lemma {:induction false} ExplicitLast(e: Expr)
    requires Canonical(e)
    ensures Text(Explicit(e)) != "" && Text(e) != ""
    ensures Text(Explicit(e))[|Text(Explicit(e))| - 1] == Text(e)[|Text(e)| - 1]
  {
    CanonicalFormed(e);
    TextEnds(e);
    match e
    case Neg(e1) => ExplicitLast(e1);
    case Bin(_, l, r) => ExplicitLast(r);
    case _ =>
  }

  lemma {:induction false} SpreadSkips(s: string, i: nat, j: nat)
    requires i <= j <= |s|
    requires forall k :: i <= k < j ==> s[k] != '(' || k == 0 || !IsDigit(s[k - 1])
    ensures Spread(s, i) == Spread(s, j)
    decreases j - i
  {
    if i < j { SpreadSkips(s, i + 1, j); }
  }

  lemma SpreadSkipsPiece(pre: string, t: string, post: string)
    requires forall k :: 0 <= k < |t| ==> t[k] != '('
    ensures Spread(pre + t + post, |pre|) == Spread(pre + t + post, |pre + t|)
  {
    hide Spread;
    var s := pre + t + post;
    forall k | |pre| <= k < |pre + t| ensures s[k] != '(' { assert s[k] == t[k - |pre|]; }
    SpreadSkips(s, |pre|, |pre + t|);
  }

  lemma SpreadSkipsOpen(pre: string, post: string)
    requires !EndsInDigit(pre)
    ensures Spread(pre + "(" + post, |pre|) == Spread(pre + "(" + post, |pre| + 1)
  {
    hide Spread;
    var s := pre + "(" + post;
    assert |pre| > 0 ==> s[|pre| - 1] == pre[|pre| - 1];
    SpreadSkips(s, |pre|, |pre| + 1);
  }

  lemma SpreadInserts(pre: string, post: string)
    requires EndsInDigit(pre)
    ensures Spread(pre + "(" + post, |pre|) == Spread(pre + "*(" + post, |pre| + 2)
  {
    var s := pre + "(" + post;
    assert s[|pre| - 1] == pre[|pre| - 1] && s[|pre|] == '(';
    assert Replace(s, |pre|, |pre|, "*") == pre + "*(" + post;
  }

  /** add_mults on the text of a tree. */
  lemma {:induction false} SpreadTree(pre: string, e: Expr, post: string)
    requires Canonical(e) && !EndsInDigit(pre)
    ensures var t := Text(Explicit(e)); Spread(pre + Text(e) + post, |pre|) == Spread(pre + t + post, |pre + t|)
    decreases e, 1
  {
    hide Spread;
    match e
    case Lit(text) =>
      LitNoOpen(text);
      SpreadSkipsPiece(pre, text, post);
    case Var(name) => SpreadSkipsPiece(pre, name, post);
    case Neg(e1) => SpreadNeg(pre, e1, post);
    case Bin(op, l, r) => SpreadBin(pre, op, l, r, post);
    case Juxt(l, e1) => SpreadJuxt(pre, l, e1, post);
    case Paren(e1) =>
      SpreadParen(pre, e1, post);
  }

  lemma LitNoOpen(text: string)
    requires GoodLit(text)
    ensures forall k :: 0 <= k < |text| ==> text[k] != '('
  {
    forall k | 0 <= k < |text| ensures text[k] != '(' {
      if HexPrefix(text, 0) && k >= 2 { assert text[k] == text[2..][k - 2]; }
    }
  }

  lemma {:induction false} SpreadNeg(pre: string, e1: Expr, post: string)
    requires Canonical(e1)
    ensures var t := "-" + Text(Explicit(e1)); Spread(pre + ("-" + Text(e1)) + post, |pre|) == Spread(pre + t + post, |pre + t|)
    decreases e1, 2
  {
    hide Spread, Text, Explicit, Canonical;
    var t1 := Text(Explicit(e1));
    SpreadSkipsPiece(pre, "-", Text(e1) + post);
    assert pre + ("-" + Text(e1)) + post == pre + "-" + (Text(e1) + post) == (pre + "-") + Text(e1) + post;
    SpreadTree(pre + "-", e1, post);
    assert pre + ("-" + t1) + post == (pre + "-") + t1 + post;
    assert |pre + ("-" + t1)| == |(pre + "-") + t1|;
  }

  /** Behind a '(' that needs nothing. */
  lemma {:induction false} SpreadInner(pre: string, e1: Expr, post: string)
    requires Canonical(e1)
    ensures var t := "(" + Text(Explicit(e1)) + ")"; Spread(pre + ("(" + Text(e1) + ")") + post, |pre| + 1) == Spread(pre + t + post, |pre + t|)
    decreases e1, 2
  {
    hide Spread, Text, Explicit, Canonical;
    var t1 := Text(Explicit(e1));
    assert pre + ("(" + Text(e1) + ")") + post == (pre + "(") + Text(e1) + (")" + post);
    SpreadTree(pre + "(", e1, ")" + post);
    SpreadSkipsPiece(pre + "(" + t1, ")", post);
    assert pre + ("(" + t1 + ")") + post == (pre + "(") + t1 + (")" + post) == (pre + "(" + t1) + ")" + post;
    assert |pre + ("(" + t1 + ")")| == |pre + "(" + t1 + ")"|;
  }

  lemma {:induction false} SpreadParen(pre: string, e1: Expr, post: string)
    requires Canonical(e1) && !EndsInDigit(pre)
    ensures var t := "(" + Text(Explicit(e1)) + ")"; Spread(pre + ("(" + Text(e1) + ")") + post, |pre|) == Spread(pre + t + post, |pre + t|)
    decreases e1, 3
  {
    hide Spread, Text, Explicit, Canonical;
    assert pre + ("(" + Text(e1) + ")") + post == pre + "(" + (Text(e1) + ")" + post);
    SpreadSkipsOpen(pre, Text(e1) + ")" + post);
    SpreadInner(pre, e1, post);
  }

  lemma {:induction false} SpreadBin(pre: string, op: char, l: Expr, r: Expr, post: string)
    requires IsOperator(op) && Canonical(l) && Canonical(r) && !EndsInDigit(pre)
    ensures var t := Text(Explicit(l)) + [op] + Text(Explicit(r));
      Spread(pre + (Text(l) + [op] + Text(r)) + post, |pre|) == Spread(pre + t + post, |pre + t|)
    decreases Bin(op, l, r), 0
  {
    hide Spread, Text, Explicit, Canonical;
    var t1, t2 := Text(Explicit(l)), Text(Explicit(r));
    assert pre + (Text(l) + [op] + Text(r)) + post == pre + Text(l) + ([op] + Text(r) + post);
    SpreadTree(pre, l, [op] + Text(r) + post);
    assert pre + t1 + ([op] + Text(r) + post) == (pre + t1) + [op] + (Text(r) + post) == (pre + t1 + [op]) + Text(r) + post;
    SpreadSkipsPiece(pre + t1, [op], Text(r) + post);
    SpreadTree(pre + t1 + [op], r, post);
    assert pre + (t1 + [op] + t2) + post == (pre + t1 + [op]) + t2 + post;
    assert |pre + (t1 + [op] + t2)| == |pre + t1 + [op] + t2|;
  }

  /** An implied multiplication behind a decimal digit gets its '*'; any other stays. */
  lemma {:induction false} SpreadJuxt(pre: string, l: Expr, e1: Expr, post: string)
    requires Canonical(l) && Canonical(e1) && !EndsInDigit(pre)
    ensures var t := Text(Explicit(Juxt(l, e1)));
      Spread(pre + (Text(l) + "(" + Text(e1) + ")") + post, |pre|) == Spread(pre + t + post, |pre + t|)
    decreases Juxt(l, e1), 0
  {
    hide Spread, Canonical, Text, Explicit;
    var t1 := Text(Explicit(l));
    assert pre + (Text(l) + "(" + Text(e1) + ")") + post == pre + Text(l) + (("(" + Text(e1) + ")") + post);
    SpreadTree(pre, l, ("(" + Text(e1) + ")") + post);
    ExplicitLast(l);
    ExplicitJuxt(l, e1);
    assert (pre + t1)[|pre + t1| - 1] == t1[|t1| - 1];
    if EndsInDigit(Text(l)) { SpreadJoined(pre, t1, e1, post); } else { SpreadApart(pre, t1, e1, post); }
  }

  lemma ExplicitJuxt(l: Expr, e1: Expr)
    ensures var t1, t2 := Text(Explicit(l)), Text(Explicit(e1));
      Text(Explicit(Juxt(l, e1))) == if EndsInDigit(Text(l)) then t1 + ['*'] + ("(" + t2 + ")") else t1 + "(" + t2 + ")"
  {
  }

  lemma {:induction false} SpreadJoined(pre: string, t1: string, e1: Expr, post: string)
    requires Canonical(e1) && EndsInDigit(pre + t1)
    ensures var t := t1 + ['*'] + ("(" + Text(Explicit(e1)) + ")");
      Spread(pre + t1 + (("(" + Text(e1) + ")") + post), |pre + t1|) == Spread(pre + t + post, |pre + t|)
    decreases e1, 3
  {
    hide Spread, Text, Explicit, Canonical;
    var t2 := Text(Explicit(e1));
    var rest := Text(e1) + ")" + post;
    assert pre + t1 + (("(" + Text(e1) + ")") + post) == (pre + t1) + "(" + rest;
    SpreadInserts(pre + t1, rest);
    assert (pre + t1) + "*(" + rest == (pre + t1 + ['*']) + ("(" + Text(e1) + ")") + post;
    SpreadInner(pre + t1 + ['*'], e1, post);
    assert pre + (t1 + ['*'] + ("(" + t2 + ")")) + post == (pre + t1 + ['*']) + ("(" + t2 + ")") + post;
    assert |pre + (t1 + ['*'] + ("(" + t2 + ")"))| == |(pre + t1 + ['*']) + ("(" + t2 + ")")|;
  }

  lemma {:induction false} SpreadApart(pre: string, t1: string, e1: Expr, post: string)
    requires Canonical(e1) && !EndsInDigit(pre + t1)
    ensures var t := t1 + "(" + Text(Explicit(e1)) + ")";
      Spread(pre + t1 + (("(" + Text(e1) + ")") + post), |pre + t1|) == Spread(pre + t + post, |pre + t|)
    decreases e1, 4
  {
    hide Spread, Text, Explicit, Canonical;
    var t2 := Text(Explicit(e1));
    SpreadParen(pre + t1, e1, post);
    assert pre + t1 + (("(" + Text(e1) + ")") + post) == (pre + t1) + ("(" + Text(e1) + ")") + post;
    assert pre + (t1 + "(" + t2 + ")") + post == (pre + t1) + ("(" + t2 + ")") + post;
    assert |pre + (t1 + "(" + t2 + ")")| == |pre + t1 + ("(" + t2 + ")")|;
  }

  lemma SpreadIsExplicit(e: Expr)
    requires Canonical(e)
    ensures Spread(Text(e), 0) == Text(Explicit(e))
  {
    var t := Text(Explicit(e));
    SpreadTree("", e, "");
    assert "" + Text(e) + "" == Text(e) && "" + t + "" == t;
  }

  // ----- the whole pipeline

  /** eval_expr. */
  function EvalExpr(text: string, env: Env): Result {
    if text == "" then Error(false)
    else
      match Sub(TrimRight(TrimLeft(text)), 0, env)
      case NoThread => Error(false)
      case Done(s) => Evaluate(Spread(s, 0))
  }

  lemma {:induction false} TrimLeftDrops(lead: string, s: string)
    requires (forall k :: 0 <= k < |lead| ==> IsBlank(lead[k])) && s != "" && !IsBlank(s[0])
    ensures TrimLeft(lead + s) == s
  {
    if lead == "" { assert lead + s == s; }
    else {
      assert (lead + s)[1..] == lead[1..] + s;
      TrimLeftDrops(lead[1..], s);
    }
  }

  lemma {:induction false} TrimRightDrops(s: string, trail: string)
    requires (forall k :: 0 <= k < |trail| ==> IsBlank(trail[k])) && s != "" && !IsBlank(s[|s| - 1])
    ensures TrimRight(s + trail) == s
  {
    if trail == "" { assert s + trail == s; }
    else {
      assert (s + trail)[..|s + trail| - 1] == s + trail[..|trail| - 1];
      TrimRightDrops(s, trail[..|trail| - 1]);
    }
  }

  /** The operands that the evaluator leaves of a tree whose text has gone through add_mults. */
  function Leaves(e: Expr): Option<seq<int>>
    requires Canonical(e) && Closed(e)
    ensures Leaves(e).Some? ==> |Leaves(e).value| == 1 + Joints(Explicit(e))
  {
    ExplicitValue(e, map[]);
    RegroupGroups(Explicit(e));
    RegroupJoints(Explicit(e));
    Operands(Regroup(Explicit(e)))
  }

  /** Exactly one operand is left if every implied multiplication follows a decimal digit. */
  lemma {:induction false} JointsIff(e: Expr)
    requires Closed(e)
    ensures Joints(Explicit(e)) == 0 <==> DigitJoined(e)
  {
    match e
    case Neg(e1) => JointsIff(e1);
    case Bin(_, l, r) => JointsIff(l); JointsIff(r);
    case Juxt(l, e1) => JointsIff(l); JointsIff(e1);
    case Paren(e1) => JointsIff(e1);
    case _ =>
  }

  lemma LeavesValue(e: Expr)
    requires Canonical(e) && Closed(e) && DigitJoined(e)
    ensures Leaves(e) == One(ValueOf(e, map[]))
  {
    hide Operands, Regroup, ValueOf;
    ExplicitPlainIff(e);
    ExplicitValue(e, map[]);
    PlainOperands(Explicit(e));
  }

  lemma SpreadLeaves(e: Expr)
    requires Canonical(e) && Closed(e)
    ensures Evaluate(Spread(Text(e), 0)) == Outcome(Leaves(e))
  {
    hide Spread, Evaluate, Text, Operands, Regroup, Explicit;
    SpreadIsExplicit(e);
    ExplicitValue(e, map[]);
    EvaluateLeaves(Explicit(e));
  }

  predicate Blanks(s: string) {
    forall k :: 0 <= k < |s| ==> s[k] in " \t"
  }

  lemma {:induction false} BlanksTrimmed(s: string)
    requires Blanks(s)
    ensures TrimLeft(s) == ""
  {
    if s != "" { BlanksTrimmed(s[1..]); }
  }

  /** No text is an error; a blank one is evaluated, to what popping an empty stack yields. */
  lemma BlankIsPopped(s: string, env: Env)
    requires Blanks(s)
    ensures EvalExpr(s, env) == if s == "" then Error(false) else Value(LONG_MIN, 0, true)
  {
    BlanksTrimmed(s);
  }

  /** Substitution then evaluation: what `eval_expr` returns on the text of any tree whose variables
      are bound to integers other than LONG_MIN, with blanks around it. One operand is left exactly if
      every implied multiplication follows a decimal digit; else one more for each that does not, and
      the last is returned. */
  lemma EvalExprLeaves(e: Expr, env: Env, lead: string, trail: string)
    requires Canonical(e) && Bound(e, env.vars)
    requires Blanks(lead) && Blanks(trail)
    ensures var e1, r := Subst(e, env.vars), EvalExpr(lead + Text(e) + trail, env);
      && Canonical(e1) && Closed(e1) && r == Outcome(Leaves(e1))
      && (r.Value? ==> r.operands == 1 + Joints(Explicit(e1)) && (r.operands == 1 <==> DigitJoined(e1)))
  {
    hide Sub, Spread, Evaluate, Text, ValueOf, Leaves, Joints, Explicit, DigitJoined, Subst, Bound;
    var e1 := Subst(e, env.vars);
    CanonicalFormed(e);
    TextEnds(e);
    assert lead + Text(e) + trail == lead + (Text(e) + trail);
    assert (Text(e) + trail)[0] == Text(e)[0];
    TrimLeftDrops(lead, Text(e) + trail);
    TrimRightDrops(Text(e), trail);
    SubIsSubst(e, env);
    SubstCanonical(e, env.vars);
    SpreadLeaves(e1);
    JointsIff(e1);
  }

  /** In the good case that is what the tree stands for, and an error exactly when a division is by zero. */
  lemma EvalExprIsValue(e: Expr, env: Env, lead: string, trail: string)
    requires Canonical(e) && Bound(e, env.vars) && DigitJoined(Subst(e, env.vars))
    requires Blanks(lead) && Blanks(trail)
    ensures EvalExpr(lead + Text(e) + trail, env) == Alone(ValueOf(e, env.vars))
    ensures forall v :: Denotes(e, env.vars, v) <==> EvalExpr(lead + Text(e) + trail, env) == Alone(v)
  {
    hide EvalExpr, Text, ValueOf, Leaves, Joints, Explicit, DigitJoined, Subst, Bound, Denotes;
    OnlyValue(e, env.vars);
    EvalExprLeaves(e, env, lead, trail);
    SubstValue(e, env.vars);
    LeavesValue(Subst(e, env.vars));
  }

  // ----- what is lost otherwise

  lemma {:induction false} DigitJoinedClosed(e: Expr)
    requires DigitJoined(e)
    ensures Closed(e)
  {
    match e
    case Neg(e1) => DigitJoinedClosed(e1);
    case Bin(_, l, r) => DigitJoinedClosed(l); DigitJoinedClosed(r);
    case Juxt(l, e1) => DigitJoinedClosed(l); DigitJoinedClosed(e1);
    case Paren(e1) => DigitJoinedClosed(e1);
    case Lit(_) =>
  }

  function Both(a: Option<int>, b: Option<int>): Option<seq<int>> {
    match (a, b)
    case (Some(x), Some(y)) => Some([x, y])
    case _ => None
  }

  /** What a literal or bracket and the bracket behind it leave. */
  lemma JoinedLeaves(l: Expr, e: Expr)
    requires Canonical(Juxt(l, e)) && Level(l) == 4 && !EndsInDigit(Text(l)) && DigitJoined(l) && DigitJoined(e)
    ensures Closed(Juxt(l, e)) && Leaves(Juxt(l, e)) == Both(ValueOf(l, map[]), ValueOf(e, map[]))
    ensures Regroup(Explicit(Juxt(l, e))) == Juxt(Regroup(Explicit(l)), Regroup(Explicit(e)))
  {
    DigitJoinedClosed(l);
    DigitJoinedClosed(e);
    assert Explicit(Juxt(l, e)) == Juxt(Explicit(l), Explicit(e));
    var g, h := Regroup(Explicit(l)), Regroup(Explicit(e));
    assert Regroup(Juxt(Explicit(l), Explicit(e))) == Juxt(g, h);
    hide ValueOf, Explicit, DigitJoined, Regroup, Text;
    JoinedOperands(l, e);
    LeavesValue(l);
    LeavesValue(e);
    assert Leaves(Juxt(l, e)) == Operands(Juxt(g, h)) && Leaves(l) == Operands(g) && Leaves(e) == Operands(h);
    hide Leaves;
    assert forall a: int, b: int :: [a] + [b] == [a, b];
  }

  lemma JoinedOperands(l: Expr, e: Expr)
    requires Canonical(l) && Canonical(e) && Closed(l) && Closed(e)
    ensures Grouped(Regroup(Explicit(l))) && Closed(Regroup(Explicit(l))) && Grouped(Regroup(Explicit(e))) && Closed(Regroup(Explicit(e)))
  {
    ExplicitValue(l, map[]);
    ExplicitValue(e, map[]);
    RegroupGroups(Explicit(l));
    RegroupGroups(Explicit(e));
  }

  /** Behind a literal that ends in a hexadecimal letter, or behind a bracket, only the bracket's value
      remains: "0xa(2)" is 2, and so is "(7)(2)". */
  lemma LetterJoinedIsDropped(l: Expr, e: Expr)
    requires Canonical(Juxt(l, e)) && Level(l) == 4 && !EndsInDigit(Text(l)) && DigitJoined(l) && DigitJoined(e)
    ensures Evaluate(Spread(Text(Juxt(l, e)), 0)) == Outcome(Both(ValueOf(l, map[]), ValueOf(e, map[])))
  {
    hide Spread, Evaluate, Text, ValueOf, Leaves;
    JoinedLeaves(l, e);
    SpreadLeaves(Juxt(l, e));
  }

  /** Behind a product or quotient its left side is lost: the last factor is multiplied with the
      bracket, or divided by it. "0xb*0xa(2)" is 20, and "8/0xa(2)" is 5. */
  lemma ProductLosesLeft(op: char, a: Expr, b: Expr, e: Expr)
    requires (op == '*' || op == '/') && Canonical(Bin(op, a, b)) && Canonical(e) && Level(b) == 4 && !EndsInDigit(Text(b))
    requires DigitJoined(a) && DigitJoined(b) && DigitJoined(e)
    ensures Evaluate(Spread(Text(Juxt(Bin(op, a, b), e)), 0)) ==
      Outcome(Both(ValueOf(a, map[]), Combine(ValueOf(b, map[]), ValueOf(e, map[]), op)))
  {
    var t := Juxt(Bin(op, a, b), e);
    ProductLeaves(op, a, b, e);
    hide Spread, Evaluate, Text, ValueOf, Leaves, Combine;
    SpreadLeaves(t);
  }

  lemma ProductRegroups(op: char, a: Expr, b: Expr, e: Expr)
    requires (op == '*' || op == '/') && Canonical(Bin(op, a, b)) && Canonical(e) && !EndsInDigit(Text(b))
    ensures var t, j := Juxt(Bin(op, a, b), e), Juxt(b, e);
      Canonical(t) && Canonical(j) && Regroup(Explicit(t)) == Bin(op, Regroup(Explicit(a)), Regroup(Explicit(j)))
  {
    var l := Text(a) + [op] + Text(b);
    assert l == Text(Bin(op, a, b));
    CanonicalFormed(b);
    TextEnds(b);
    assert l[|l| - 1] == Text(b)[|Text(b)| - 1];
    hide Text;
    assert !EndsInDigit(l);
  }

  lemma ProductLeaves(op: char, a: Expr, b: Expr, e: Expr)
    requires (op == '*' || op == '/') && Canonical(Bin(op, a, b)) && Canonical(e) && Level(b) == 4 && !EndsInDigit(Text(b))
    requires DigitJoined(a) && DigitJoined(b) && DigitJoined(e)
    ensures var t := Juxt(Bin(op, a, b), e);
      Canonical(t) && Closed(t) && Leaves(t) == Both(ValueOf(a, map[]), Combine(ValueOf(b, map[]), ValueOf(e, map[]), op))
  {
    var t, j := Juxt(Bin(op, a, b), e), Juxt(b, e);
    DigitJoinedClosed(a);
    ProductRegroups(op, a, b, e);
    JoinedLeaves(b, e);
    LeavesValue(a);
    assert Closed(t) && Closed(a) && Closed(j);
    hide Text, Explicit, ValueOf, DigitJoined, EndsInDigit, Regroup, Leaves, Canonical, Closed, Level, ApplyTop;
    ProductOperands(op, a, j, t);
    ProductBoth(ValueOf(a, map[]), ValueOf(b, map[]), ValueOf(e, map[]), op);
  }

  lemma ProductBoth(x: Option<int>, y: Option<int>, z: Option<int>, op: char)
    ensures var left, right := One(x), Both(y, z);
      (if left.Some? && right.Some? && |right.value| > 0 then ApplyTop(left.value + right.value, op) else None) == Both(x, Combine(y, z, op))
  {
    hide Apply, ApplyTop;
    if x.Some? && y.Some? && z.Some? { ApplyThree(x.value, y.value, z.value, op); }
  }

  lemma ProductOperands(op: char, a: Expr, j: Expr, t: Expr)
    requires Canonical(a) && Closed(a) && Canonical(j) && Closed(j) && Canonical(t) && Closed(t)
    requires Regroup(Explicit(t)) == Bin(op, Regroup(Explicit(a)), Regroup(Explicit(j)))
    ensures Leaves(t) == if Leaves(a).Some? && Leaves(j).Some? && |Leaves(j).value| > 0 then ApplyTop(Leaves(a).value + Leaves(j).value, op) else None
  {
    hide Explicit, Regroup, Canonical, ApplyTop;
    JoinedOperands(a, j);
    JoinedOperands(t, t);
  }

  lemma ApplyThree(a: int, b: int, c: int, op: char)
    ensures ApplyTop([a] + [b, c], op) == match Apply(b, c, op) case None => None case Some(v) => Some([a, v])
  {
    hide Apply;
    var vs := [a] + [b, c];
    assert vs[1] == b && vs[2] == c;
    match Apply(b, c, op)
    case None =>
    case Some(v) => assert vs[..1] + [v] == [a, v];
  }
}
