/** If-blocks of compiled expressions, and short-circuit against eager evaluation. */
module ExpressionBlocks {
  import opened Wrappers
  import opened Expressions
  import opened ExpressionParser
  import opened ExpressionTrees
  import opened ExpressionEval

  datatype IfThen = IfThen(expr: seq<Item>, consequence: seq<Item>)

  // Conditions share one capture buffer, which the chosen branch sees.
  function RunBlock(env: Env, ifThen: seq<IfThen>, otherwise: seq<Item>, captures: seq<string>): Value {
    if ifThen == [] then Outcome(Exec(env, otherwise, Machine([], captures)))
    else
      var m := Exec(env, ifThen[0].expr, Machine([], captures));
      if ToBool(Outcome(m)) then Outcome(Exec(env, ifThen[0].consequence, Machine([], m.captures)))
      else RunBlock(env, ifThen[1..], otherwise, m.captures)
  }

  method EvalBlock(env: Env, ifThen: seq<IfThen>, otherwise: seq<Item>) returns (v: Value)
    ensures v == RunBlock(env, ifThen, otherwise, [])
  {
    var captures: seq<string> := [];
    for i := 0 to |ifThen|
      invariant RunBlock(env, ifThen, otherwise, []) == RunBlock(env, ifThen[i..], otherwise, captures)
    {
      var condition;
      condition, captures := Eval(env, ifThen[i].expr, captures);
      assert ifThen[i..][0] == ifThen[i] && ifThen[i..][1..] == ifThen[i + 1..];
      if ToBool(condition) {
        v, captures := Eval(env, ifThen[i].consequence, captures);
        return;
      }
    }
    v, captures := Eval(env, otherwise, captures);
  }

  datatype Clause = Clause(condition: Expr, consequence: Expr)

  /** The meaning of an if-block of trees. */
  function BlockMeaning(env: Env, clauses: seq<Clause>, otherwise: Expr, captures: seq<string>): Value {
    if clauses == [] then Meaning(env, otherwise, captures).0
    else
      var (v, c) := Meaning(env, clauses[0].condition, captures);
      if ToBool(v) then Meaning(env, clauses[0].consequence, c).0
      else BlockMeaning(env, clauses[1..], otherwise, c)
  }

  predicate Usable(e: Expr) {
    Accepted(e) && |Print(e)| < I32_RANGE
  }

  // Block i is what the parser makes of clause i.
  predicate CompiledFrom(ifThen: seq<IfThen>, clauses: seq<Clause>) {
    && |ifThen| == |clauses|
    && forall i | 0 <= i < |clauses| ::
         && Usable(clauses[i].condition) && Usable(clauses[i].consequence)
         && ParseTokens(Print(clauses[i].condition)) == Ok(ifThen[i].expr)
         && ParseTokens(Print(clauses[i].consequence)) == Ok(ifThen[i].consequence)
  }

  /** Evaluating a compiled if-block gives the meaning of its trees, captures flowing from each
      condition to the next one and to the chosen branch. */
  lemma {:induction false} BlockPreservation(env: Env, ifThen: seq<IfThen>, clauses: seq<Clause>,
                                             otherwise: Expr, code: seq<Item>, captures: seq<string>)
    requires CompiledFrom(ifThen, clauses)
    requires Usable(otherwise) && ParseTokens(Print(otherwise)) == Ok(code)
    ensures RunBlock(env, ifThen, code, captures) == BlockMeaning(env, clauses, otherwise, captures)
    decreases |clauses|
  {
    if clauses == [] {
      SemanticPreservation(env, otherwise, captures);
    } else {
      var c := clauses[0];
      SemanticPreservation(env, c.condition, captures);
      SemanticPreservation(env, c.consequence, Meaning(env, c.condition, captures).1);
      BlockPreservation(env, ifThen[1..], clauses[1..], otherwise, code, Meaning(env, c.condition, captures).1);
    }
  }

  predicate RegexFree(e: Expr)
    decreases e
  {
    match e
    case Var(_) | Const(_) | Group(_) => true
    case Un(_, x) => RegexFree(x)
    case Bin(_, l, r) => RegexFree(l) && RegexFree(r)
    case Call(_, _, _, args) => AllRegexFree(args)
    case Match(_, _) => false
    case Array(items) => AllRegexFree(items)
    case Index(b, i) => RegexFree(b) && RegexFree(i)
  }

  predicate AllRegexFree(es: seq<Expr>)
    decreases es
  {
    es == [] || (RegexFree(es[0]) && AllRegexFree(es[1..]))
  }

  lemma {:induction false} KeepsCaptures(env: Env, e: Expr, captures: seq<string>)
    requires RegexFree(e)
    ensures Meaning(env, e, captures).1 == captures
    decreases e
  {
    match e
    case Var(_) | Const(_) | Group(_) =>
    case Un(_, x) => KeepsCaptures(env, x, captures);
    case Bin(_, l, r) => KeepsCaptures(env, l, captures); KeepsCaptures(env, r, captures);
    case Call(_, _, _, args) => ListKeepsCaptures(env, args, captures);
    case Array(items) => ListKeepsCaptures(env, items, captures);
    case Index(b, i) => KeepsCaptures(env, b, captures); KeepsCaptures(env, i, captures);
  }

  lemma {:induction false} ListKeepsCaptures(env: Env, es: seq<Expr>, captures: seq<string>)
    requires AllRegexFree(es)
    ensures MeaningList(env, es, captures).1 == captures
    decreases es
  {
    if es != [] {
      KeepsCaptures(env, es[0], captures);
      ListKeepsCaptures(env, es[1..], captures);
    }
  }

  /** Evaluates every operand of `&&`, `||`, `^` and `!` and applies the operator. */
  function Eager(env: Env, e: Expr, captures: seq<string>): Value
    decreases e
  {
    match e
    case Un(Not, x) => ApplyUnary(env, Not, Eager(env, x, captures))
    case Bin(op, l, r) =>
      if op == And || op == Or || op == Xor then
        ApplyBinary(env, op, Eager(env, l, captures), Eager(env, r, captures))
      else Meaning(env, e, captures).0
    case _ => Meaning(env, e, captures).0
  }

  /** Short-circuit evaluation has the truth value of eager evaluation. */
  lemma {:induction false} ShortCircuitRefinesEager(env: Env, e: Expr, captures: seq<string>)
    requires RegexFree(e)
    ensures ToBool(Meaning(env, e, captures).0) == ToBool(Eager(env, e, captures))
    decreases e
  {
    match e
    case Un(Not, x) => ShortCircuitRefinesEager(env, x, captures);
    case Bin(op, l, r) =>
      if op == And || op == Or || op == Xor {
        ShortCircuitRefinesEager(env, l, captures);
        ShortCircuitRefinesEager(env, r, captures);
        KeepsCaptures(env, l, captures);
      }
    case _ =>
  }

  // The left operand decides, and is not the integer that the operator would give.
  predicate KeepsOperand(env: Env, e: Expr, captures: seq<string>) {
    match e
    case Bin(op, l, _) =>
      var left := Meaning(env, l, captures).0;
      IsShortCircuit(op) && ToBool(left) == (op == Or) && left != FromBool(op == Or)
    case _ => false
  }

  /** The values agree exactly when no deciding operand other than 0 or 1 is kept at the top. */
  lemma ValuesAgreeExactly(env: Env, e: Expr, captures: seq<string>)
    requires RegexFree(e)
    ensures Meaning(env, e, captures).0 == Eager(env, e, captures) <==> !KeepsOperand(env, e, captures)
  {
    match e
    case Un(Not, x) => ShortCircuitRefinesEager(env, x, captures);
    case Bin(op, l, r) =>
      if op == And || op == Or || op == Xor {
        ShortCircuitRefinesEager(env, l, captures);
        ShortCircuitRefinesEager(env, r, captures);
        KeepsCaptures(env, l, captures);
      }
    case _ =>
  }

  /** One such operand: `"" && 1` is the empty string, where eager evaluation gives 0. */
  lemma DecidingValueIsKept(env: Env)
    ensures var e := Bin(And, Const(StringConstant("")), Const(IntegerConstant(1)));
            Meaning(env, e, []).0 == Str("") && Eager(env, e, []) == Int(0)
  {
    assert !ToBool(Meaning(env, Const(StringConstant("")), []).0);
  }
}
