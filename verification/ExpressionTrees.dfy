/** Source trees, their printed token streams and their reference code. */
module ExpressionTrees {
  import opened Expressions
  import opened ExpressionParser

  // Identifiers the tokenizer can give a function: the two array identifiers are reserved.
  type FunctionId = n: u32 | n < ARRAY_BUILD

  datatype Expr =
    | Var(variable: u32)
    | Const(constant: Constant)
    | Group(capture: u32)
    | Un(uop: UnaryOperator, operand: Expr)
    | Bin(bop: BinaryOperator, left: Expr, right: Expr)
    | Call(name: string, id: FunctionId, numArgs: u32, args: seq<Expr>)
    | Match(regex: Regex, text: Expr)
    | Array(items: seq<Expr>)
    | Index(base: Expr, index: Expr)

  const UNARY_LEVEL := 8
  const INDEXED_LEVEL := 10

  // How tightly a tree holds together when printed without parentheses.
  function Level(e: Expr): (l: int)
    ensures 1 <= l <= INDEXED_LEVEL
  {
    match e
    case Bin(op, _, _) => Precedence(op)
    case Un(_, _) => UNARY_LEVEL
    case Const(_) | Group(_) => 9
    case _ => INDEXED_LEVEL
  }

  /** The token stream of a tree, parenthesised only where precedence, left association or
      indexing requires it. */
  function Print(e: Expr): (t: seq<Token>)
    ensures |t| >= 1
    decreases e, 0
  {
    match e
    case Var(v) => [Token.Variable(v)]
    case Const(c) => [Token.Constant(c)]
    case Group(c) => [Token.Capture(c)]
    case Un(op, x) => [Token.Unary(op)] + PrintAt(x, UNARY_LEVEL)
    case Bin(op, l, r) => PrintAt(l, Precedence(op)) + [Token.Binary(op)] + PrintAt(r, Precedence(op) + 1)
    case Call(name, id, n, args) => [Token.Function(name, id, n), OpenParen] + PrintList(args) + [CloseParen]
    case Match(regex, x) => [Token.Regex(regex), OpenParen] + Print(x) + [CloseParen]
    case Array(items) => [OpenBracket] + PrintList(items) + [CloseBracket]
    case Index(b, i) => PrintAt(b, INDEXED_LEVEL) + [OpenBracket] + Print(i) + [CloseBracket]
  }

  function PrintAt(e: Expr, level: int): (t: seq<Token>)
    ensures |t| >= 1
    decreases e, 1
  {
    if level <= Level(e) then Print(e) else [OpenParen] + Print(e) + [CloseParen]
  }

  function PrintList(es: seq<Expr>): (t: seq<Token>)
    ensures |t| >= |es|
    decreases es
  {
    if es == [] then []
    else if |es| == 1 then Print(es[0])
    else Print(es[0]) + [Comma] + PrintList(es[1..])
  }

  /** The reference compiler. */
  function Compile(e: Expr): (code: seq<Item>)
    decreases e, 0
  {
    match e
    case Var(v) => [Item.Variable(v)]
    case Const(c) => [Item.Constant(c)]
    case Group(c) => [Item.Capture(c)]
    case Un(op, x) => Compile(x) + [Item.Unary(op)]
    case Bin(op, l, r) => CompileBinary(op, Compile(l), Compile(r))
    case Call(_, id, n, args) => CompileList(args) + [Item.Function(id, n)]
    case Match(regex, x) => Compile(x) + [Item.Regex(regex)]
    case Array(items) => CompileList(items) + [ArrayBuild(Wrap32(|items|))]
    case Index(b, i) => Compile(b) + Compile(i) + [ArrayAccess]
  }

  function CompileList(es: seq<Expr>): (code: seq<Item>)
    decreases es
  {
    if es == [] then [] else Compile(es[0]) + CompileList(es[1..])
  }

  function CompileBinary(op: BinaryOperator, left: seq<Item>, right: seq<Item>): seq<Item> {
    left + ShortCircuit(op, |right|) + right + [Item.Binary(op)]
  }

  // The jump over a right operand of the given length and its operator.
  function ShortCircuit(op: BinaryOperator, rightLen: nat): (code: seq<Item>)
    ensures |code| <= 1
  {
    if IsShortCircuit(op) then [JmpIf(op == Or, Wrap32(rightLen + 1))] else []
  }

  // The printed form starts with neither a unary operator nor a parenthesis.
  predicate Plain(e: Expr)
    decreases e, 0
  {
    match e
    case Un(_, _) => false
    case Bin(op, l, _) => PlainAt(l, Precedence(op))
    case Index(b, _) => PlainAt(b, INDEXED_LEVEL)
    case _ => true
  }

  predicate PlainAt(e: Expr, level: int)
    decreases e, 1
  {
    level <= Level(e) && Plain(e)
  }

  // The first printed token is what decides plainness.
  lemma {:induction false} PlainIsFirstToken(e: Expr)
    ensures Plain(e) <==> !Print(e)[0].Unary? && !Print(e)[0].OpenParen?
    decreases e
  {
    match e
    case Bin(op, l, _) => PlainIsFirstToken(l);
    case Index(b, _) => PlainIsFirstToken(b);
    case _ =>
  }

  /** The trees whose printed form is accepted: calls have their declared number of arguments
      and the items of array literals are plain. */
  predicate Accepted(e: Expr)
    decreases e, 0
  {
    match e
    case Var(_) | Const(_) | Group(_) => true
    case Un(_, x) => Accepted(x)
    case Bin(_, l, r) => Accepted(l) && Accepted(r)
    case Call(_, _, n, args) => AllAccepted(args) && |args| == AsI32(n)
    case Match(_, x) => Accepted(x)
    case Array(items) => AllAccepted(items) && forall i | 0 <= i < |items| :: Plain(items[i])
    case Index(b, i) => Accepted(b) && Accepted(i)
  }

  predicate AllAccepted(es: seq<Expr>)
    decreases es
  {
    es == [] || (Accepted(es[0]) && AllAccepted(es[1..]))
  }

  lemma {:induction false} CompileLength(e: Expr)
    ensures 1 <= |Compile(e)| <= 2 * |Print(e)| - 1
    decreases e, 0
  {
    match e
    case Var(_) | Const(_) | Group(_) =>
    case Un(_, x) => CompileLength(x);
    case Bin(_, l, r) => CompileLength(l); CompileLength(r);
    case Call(_, _, _, args) => CompileListLength(args);
    case Match(_, x) => CompileLength(x);
    case Array(items) => CompileListLength(items);
    case Index(b, i) => CompileLength(b); CompileLength(i);
  }

  lemma {:induction false} CompileListLength(es: seq<Expr>)
    ensures |CompileList(es)| <= 2 * |PrintList(es)|
    decreases es
  {
    if es != [] {
      CompileLength(es[0]);
      CompileListLength(es[1..]);
    }
  }
}
