/** `eval_expr` and its text passes as the loops they are. */
module ExprPipeline {
  import opened Longs
  import opened ExprMachine
  import opened ExprSub
  import opened ExprEval
  import opened StrExt

  method FindEndOfOperand(text: string, start: nat) returns (end: nat)
    requires start <= |text|
    ensures end == OperandEnd(text, start)
  {
    end := start;
    while !OperandEndsAt(text, end) && end < |text|
      invariant start <= end <= |text| && OperandEnd(text, end) == OperandEnd(text, start)
      decreases |text| - end
    {
      end := end + 1;
    }
  }

  /** sub_conv_vars, by cutting and inserting in the buffer. */
  method SubConvVars(expr: Str, env: Env) returns (failed: bool)
    requires expr.Valid()
    modifies expr, expr.buf
    ensures expr.Valid() && (expr.buf == old(expr.buf) || fresh(expr.buf))
    ensures match Sub(old(expr.Text()), 0, env)
      case NoThread => failed
      case Done(text) => !failed && expr.Text() == text
  {
    hide Splice;
    var n := expr.Strlen();
    var i := 0;
    while i < n
      invariant expr.Valid() && n == expr.len && (expr.buf == old(expr.buf) || fresh(expr.buf))
      invariant Sub(expr.Text(), i, env) == Sub(old(expr.Text()), 0, env)
      decreases Dollars(expr.Text(), i), n - i
    {
      ghost var text := expr.Text();
      ghost var k := i;
      if expr.buf[i] == '$' {
        failed, n := Substitute(expr, i, env);
        if failed { return; }
      } else {
        SubPlain(text, i, env);
      }
      i := i + 1;
    }
    failed := false;
  }

  lemma SubPlain(s: string, i: nat, env: Env)
    requires i < |s| && s[i] != '$'
    ensures Sub(s, i, env) == Sub(s, i + 1, env) && Dollars(s, i) == Dollars(s, i + 1)
  {
  }

  /** Replaces the operand at `i` by what it stands for. */
  method Substitute(expr: Str, i: nat, env: Env) returns (failed: bool, n: nat)
    requires expr.Valid() && i < expr.len && expr.buf[i] == '$'
    modifies expr, expr.buf
    ensures expr.Valid() && (expr.buf == old(expr.buf) || fresh(expr.buf)) && n == expr.len
    ensures failed ==> Sub(old(expr.Text()), i, env) == NoThread
    ensures !failed ==> Sub(old(expr.Text()), i, env) == Sub(expr.Text(), i + 1, env)
    ensures !failed ==> Dollars(expr.Text(), i + 1) < Dollars(old(expr.Text()), i)
  {
    hide Splice, Sub, Dollars;
    var text := expr.Tail(0);
    assert text == expr.Text();
    var end := FindEndOfOperand(text, i);
    var name := text[i..end];
    expr.Cut(i, end - i);
    var t := Splice(name, env);
    if t.None? {
      n := expr.Strlen();
      SubFails(text, i, end, env);
      return true, n;
    }
    expr.Insert(t.value, i);
    assert expr.Text() == Replace(text, i, end, t.value);
    SubStep(text, i, end, t.value, env);
    ReplaceSpends(text, i, end, t.value);
    n := expr.Strlen();
    failed := false;
  }

  lemma SubFails(s: string, i: nat, j: nat, env: Env)
    requires i < j <= |s| && s[i] == '$' && OperandEnd(s, i) == j && Splice(s[i..j], env) == None
    ensures Sub(s, i, env) == NoThread
  {
    hide Splice;
  }

  /** add_mults. */
  method AddMults(expr: Str)
    requires expr.Valid()
    modifies expr, expr.buf
    ensures expr.Valid() && expr.Text() == Spread(old(expr.Text()), 0)
  {
    hide Spread;
    var n := expr.Strlen();
    var i := 0;
    while i < n
      invariant expr.Valid() && n == expr.len && (expr.buf == old(expr.buf) || fresh(expr.buf))
      invariant Spread(expr.Text(), i) == Spread(old(expr.Text()), 0)
      decreases n - i
    {
      SpreadStep(expr.Text(), i);
      if i >= 1 && expr.buf[i] == '(' && !IsOperator(expr.buf[i - 1]) && IsDigit(expr.buf[i - 1]) {
        n := InsertMult(expr, i);
        i := i + 1;
      }
      i := i + 1;
    }
    SpreadEnds(expr.Text(), i);
  }

  method InsertMult(expr: Str, i: nat) returns (n: nat)
    requires expr.Valid() && i < expr.len
    modifies expr, expr.buf
    ensures expr.Valid() && (expr.buf == old(expr.buf) || fresh(expr.buf)) && n == expr.len == old(expr.len) + 1
    ensures expr.Text() == Replace(old(expr.Text()), i, i, "*")
  {
    expr.Insert("*", i);
    n := expr.Strlen();
  }

  lemma SpreadStep(s: string, i: nat)
    requires i < |s|
    ensures Spread(s, i) == if i >= 1 && s[i] == '(' && !IsOperator(s[i - 1]) && IsDigit(s[i - 1]) then Spread(Replace(s, i, i, "*"), i + 2) else Spread(s, i + 1)
  {
  }

  lemma SpreadEnds(s: string, i: nat)
    requires i >= |s|
    ensures Spread(s, i) == s
  {
  }

  /** eval_expr. */
  method EvalExprText(text: string, env: Env) returns (failed: bool, v: int)
    requires '\0' !in text
    ensures failed == EvalExpr(text, env).Error?
    ensures v == if failed then LONG_MIN else EvalExpr(text, env).v
  {
    hide Sub, Spread, Evaluate;
    if |text| == 0 { return true, LONG_MIN; }
    var expr := new Str(text);
    expr.Clean();
    failed := SubConvVars(expr, env);
    if failed { return true, LONG_MIN; }
    AddMults(expr);
    var final := expr.Tail(0);
    failed, v := EvaluateText(final);
  }
}
