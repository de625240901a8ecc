/** What operators, indices and constants do, in terms of tokens and values alone. */
module ExpressionLaws {
  import opened Wrappers
  import opened Expressions
  import opened ExpressionParser
  import opened ExpressionTrees
  import opened ExpressionCompiler
  import opened ExpressionEval
  import opened ExpressionBlocks

  // ---- Which operators bind tighter ----

  // The jump over the code of a right operand of n items and its operator.
  function JumpOver(op: BinaryOperator, n: nat): seq<Item> {
    if op == And then [JmpIf(false, Wrap32(n + 1))] else if op == Or then [JmpIf(true, Wrap32(n + 1))] else []
  }

  lemma JumpIs(op: BinaryOperator, n: nat)
    ensures ShortCircuit(op, n) == JumpOver(op, n)
  {
  }

  /** The seven levels, from loosest to tightest; operators of one level group from the left. */
  function Tightness(op: BinaryOperator): (level: nat)
    ensures level < 7
  {
    match op
    case Or => 0
    case And => 1
    case Xor => 2
    case Eq | Ne => 3
    case Lt | Le | Gt | Ge => 4
    case Add | Subtract => 5
    case Multiply | Divide => 6
  }

  lemma TightnessIs(op: BinaryOperator)
    ensures Precedence(op) == Tightness(op) + 1
  {
  }

  lemma VariableAt(v: u32, level: int)
    requires level <= UNARY_LEVEL
    ensures PrintAt(Var(v), level) == [Token.Variable(v)] && Compile(Var(v)) == [Item.Variable(v)] && Accepted(Var(v))
  {
  }

  // The tree `a op b`.
  lemma PairTree(op: BinaryOperator, a: u32, b: u32)
    ensures var e := Bin(op, Var(a), Var(b));
      && Print(e) == [Token.Variable(a), Token.Binary(op), Token.Variable(b)]
      && Compile(e) == [Item.Variable(a)] + JumpOver(op, 1) + [Item.Variable(b), Item.Binary(op)]
      && Accepted(e) && Level(e) == Precedence(op)
  {
    VariableAt(a, Precedence(op));
    VariableAt(b, Precedence(op) + 1);
    JumpIs(op, 1);
  }

  lemma RightTree(op1: BinaryOperator, op2: BinaryOperator, a: u32, b: u32, c: u32)
    requires Precedence(op1) < Precedence(op2)
    ensures var e := Bin(op1, Var(a), Bin(op2, Var(b), Var(c)));
      && Accepted(e)
      && Print(e) == [Token.Variable(a), Token.Binary(op1), Token.Variable(b), Token.Binary(op2), Token.Variable(c)]
      && Compile(e) == [Item.Variable(a)] + JumpOver(op1, |JumpOver(op2, 1)| + 3)
                       + ([Item.Variable(b)] + JumpOver(op2, 1) + [Item.Variable(c), Item.Binary(op2)]) + [Item.Binary(op1)]
  {
    var r := Bin(op2, Var(b), Var(c));
    PairTree(op2, b, c);
    VariableAt(a, Precedence(op1));
    assert PrintAt(r, Precedence(op1) + 1) == Print(r);
    JumpIs(op1, |Compile(r)|);
  }

  lemma LeftTree(op1: BinaryOperator, op2: BinaryOperator, a: u32, b: u32, c: u32)
    requires Precedence(op2) <= Precedence(op1)
    ensures var e := Bin(op2, Bin(op1, Var(a), Var(b)), Var(c));
      && Accepted(e)
      && Print(e) == [Token.Variable(a), Token.Binary(op1), Token.Variable(b), Token.Binary(op2), Token.Variable(c)]
      && Compile(e) == [Item.Variable(a)] + JumpOver(op1, 1) + [Item.Variable(b), Item.Binary(op1)]
                       + JumpOver(op2, 1) + [Item.Variable(c), Item.Binary(op2)]
  {
    var l := Bin(op1, Var(a), Var(b));
    PairTree(op1, a, b);
    VariableAt(c, Precedence(op2) + 1);
    assert PrintAt(l, Precedence(op2)) == Print(l);
    JumpIs(op2, 1);
  }

  /** Of two operators the right one is applied first exactly when its level comes later in this list. */
  lemma OperatorLevels(a: u32, b: u32, c: u32, op1: BinaryOperator, op2: BinaryOperator, i: nat, j: nat)
    requires i < 7 && j < 7
    requires var levels := [{Or}, {And}, {Xor}, {Eq, Ne}, {Lt, Le, Gt, Ge}, {Add, Subtract}, {Multiply, Divide}];
      op1 in levels[i] && op2 in levels[j]
    ensures ParseTokens([Token.Variable(a), Token.Binary(op1), Token.Variable(b), Token.Binary(op2), Token.Variable(c)])
         == Ok(if i < j then
                 [Item.Variable(a)] + JumpOver(op1, |JumpOver(op2, 1)| + 3)
                 + ([Item.Variable(b)] + JumpOver(op2, 1) + [Item.Variable(c), Item.Binary(op2)]) + [Item.Binary(op1)]
               else
                 [Item.Variable(a)] + JumpOver(op1, 1) + [Item.Variable(b), Item.Binary(op1)]
                 + JumpOver(op2, 1) + [Item.Variable(c), Item.Binary(op2)])
  {
    assert Precedence(op1) == i + 1 && Precedence(op2) == j + 1;
    if i < j {
      RightTree(op1, op2, a, b, c);
      CompilesExactly(Bin(op1, Var(a), Bin(op2, Var(b), Var(c))));
    } else {
      LeftTree(op1, op2, a, b, c);
      CompilesExactly(Bin(op2, Bin(op1, Var(a), Var(b)), Var(c)));
    }
  }

  lemma EveryOperatorHasALevel(op: BinaryOperator)
    ensures exists i | 0 <= i < 7 ::
      op in [{Or}, {And}, {Xor}, {Eq, Ne}, {Lt, Le, Gt, Ge}, {Add, Subtract}, {Multiply, Divide}][i]
  {
    assert op in [{Or}, {And}, {Xor}, {Eq, Ne}, {Lt, Le, Gt, Ge}, {Add, Subtract}, {Multiply, Divide}][Tightness(op)];
  }

  // ---- Chains of operators ----

  datatype Link = Link(op: BinaryOperator, operand: Expr)

  function ChainTokens(first: Expr, rest: seq<Link>): seq<Token>
    decreases |rest|
  {
    if rest == [] then Print(first)
    else ChainTokens(first, rest[..|rest| - 1]) + [Token.Binary(rest[|rest| - 1].op)] + Print(rest[|rest| - 1].operand)
  }

  // The last of the loosest operators.
  function Loosest(rest: seq<Link>): (k: nat)
    requires rest != []
    ensures k < |rest|
    ensures forall i | 0 <= i < k :: Tightness(rest[k].op) <= Tightness(rest[i].op)
    ensures forall i | k < i < |rest| :: Tightness(rest[k].op) < Tightness(rest[i].op)
  {
    var n := |rest| - 1;
    if n == 0 then 0
    else
      var k := Loosest(rest[..n]);
      if Tightness(rest[n].op) <= Tightness(rest[k].op) then n else k
  }

  /** The chain is cut at the last of its loosest operators, and that operator is applied last. */
  function ChainCode(first: Expr, rest: seq<Link>): seq<Item>
    decreases |rest|
  {
    if rest == [] then Compile(first)
    else
      var k := Loosest(rest);
      var right := ChainCode(rest[k].operand, rest[k + 1..]);
      ChainCode(first, rest[..k]) + JumpOver(rest[k].op, |right|) + right + [Item.Binary(rest[k].op)]
  }

  function ChainTree(first: Expr, rest: seq<Link>): Expr
    decreases |rest|
  {
    if rest == [] then first
    else
      var k := Loosest(rest);
      Bin(rest[k].op, ChainTree(first, rest[..k]), ChainTree(rest[k].operand, rest[k + 1..]))
  }

  // An operand that needs no parentheses as the operand of a unary operator.
  predicate Operand(e: Expr) {
    Accepted(e) && Level(e) >= UNARY_LEVEL
  }

  predicate Operands(first: Expr, rest: seq<Link>) {
    Operand(first) && forall i | 0 <= i < |rest| :: Operand(rest[i].operand)
  }

  lemma ChainSnoc(first: Expr, rest: seq<Link>, last: Link)
    ensures ChainTokens(first, rest + [last]) == ChainTokens(first, rest) + [Token.Binary(last.op)] + Print(last.operand)
  {
    assert (rest + [last])[..|rest|] == rest;
  }

  lemma Regroup<T>(a: seq<T>, b: seq<T>, c: seq<T>, d: seq<T>)
    ensures a + b + c + d == a + (b + c + d)
  {
  }

  lemma {:induction false} ChainSplit(first: Expr, left: seq<Link>, link: Link, right: seq<Link>)
    ensures ChainTokens(first, left + [link] + right)
         == ChainTokens(first, left) + [Token.Binary(link.op)] + ChainTokens(link.operand, right)
    decreases |right|
  {
    var head := left + [link];
    if right == [] {
      assert head + right == head;
      ChainSnoc(first, left, link);
    } else {
      var init, last := right[..|right| - 1], right[|right| - 1];
      assert right == init + [last] && head + right == head + init + [last];
      ChainSplit(first, left, link, init);
      ChainSnoc(first, head + init, last);
      ChainSnoc(link.operand, init, last);
      Regroup(ChainTokens(first, left) + [Token.Binary(link.op)], ChainTokens(link.operand, init),
              [Token.Binary(last.op)], Print(last.operand));
    }
  }

  function ChainLevel(rest: seq<Link>): int {
    if rest == [] then UNARY_LEVEL else Tightness(rest[Loosest(rest)].op) + 1
  }

  // What stands before the cut binds at least as tightly, and what stands after it binds tighter.
  lemma CutLevels(rest: seq<Link>, k: nat)
    requires rest != [] && k == Loosest(rest)
    ensures Tightness(rest[k].op) + 1 <= ChainLevel(rest[..k])
    ensures Tightness(rest[k].op) + 1 < ChainLevel(rest[k + 1..])
  {
    if k > 0 {
      var j := Loosest(rest[..k]);
      assert rest[..k][j] == rest[j];
    }
    if k + 1 < |rest| {
      var j := Loosest(rest[k + 1..]);
      assert rest[k + 1..][j] == rest[k + 1 + j];
    }
  }

  // The tree is accepted, and these are its tokens, its code and at most its level.
  predicate Stands(e: Expr, tokens: seq<Token>, code: seq<Item>, level: int) {
    Accepted(e) && Print(e) == tokens && Compile(e) == code && Level(e) >= level
  }

  lemma NodeStands(op: BinaryOperator, l: Expr, lt: seq<Token>, lc: seq<Item>, ll: int,
                   r: Expr, rt: seq<Token>, rc: seq<Item>, rl: int)
    requires Stands(l, lt, lc, ll) && Stands(r, rt, rc, rl) && Tightness(op) + 1 <= ll && Tightness(op) + 1 < rl
    ensures Stands(Bin(op, l, r), lt + [Token.Binary(op)] + rt, lc + JumpOver(op, |rc|) + rc + [Item.Binary(op)], Tightness(op) + 1)
  {
    TightnessIs(op);
    JumpIs(op, |rc|);
  }

  lemma ChainUnfold(first: Expr, rest: seq<Link>, k: nat)
    requires rest != [] && k == Loosest(rest)
    ensures ChainTree(first, rest) == Bin(rest[k].op, ChainTree(first, rest[..k]), ChainTree(rest[k].operand, rest[k + 1..]))
    ensures var right := ChainCode(rest[k].operand, rest[k + 1..]);
      ChainCode(first, rest) == ChainCode(first, rest[..k]) + JumpOver(rest[k].op, |right|) + right + [Item.Binary(rest[k].op)]
    ensures ChainLevel(rest) == Tightness(rest[k].op) + 1
  {
  }

  lemma {:induction false} ChainTreeIs(first: Expr, rest: seq<Link>)
    requires Operands(first, rest)
    ensures Stands(ChainTree(first, rest), ChainTokens(first, rest), ChainCode(first, rest), ChainLevel(rest))
    decreases |rest|
  {
    if rest != [] {
      var k := Loosest(rest);
      var link, left, right := rest[k], rest[..k], rest[k + 1..];
      assert rest == left + [link] + right;
      CutLevels(rest, k);
      ChainTreeIs(first, left);
      ChainTreeIs(link.operand, right);
      ChainSplit(first, left, link, right);
      ChainUnfold(first, rest, k);
      NodeStands(link.op, ChainTree(first, left), ChainTokens(first, left), ChainCode(first, left), ChainLevel(left),
                 ChainTree(link.operand, right), ChainTokens(link.operand, right), ChainCode(link.operand, right), ChainLevel(right));
    }
  }

  /** Every chain of operators compiles to the code of its grouping by level. */
  lemma ChainsGroupByLevel(first: Expr, rest: seq<Link>)
    requires Operands(first, rest) && |ChainTokens(first, rest)| < I32_RANGE
    ensures ParseTokens(ChainTokens(first, rest)) == Ok(ChainCode(first, rest))
  {
    ChainTreeIs(first, rest);
    CompilesExactly(ChainTree(first, rest));
  }

  // ---- Refusals ----

  /** A function called with another number of arguments than it declares is refused with both numbers. */
  lemma WrongArity(s: ParserState, name: string, id: FunctionId, n: u32, args: seq<Expr>)
    requires AllAccepted(args) && |PrintList(args)| < I32_RANGE && n < I32_RANGE && |args| != n
    ensures Run(s, [Token.Function(name, id, n), OpenParen] + (PrintList(args) + [CloseParen]))
         == Err(WrongArgumentCount(name, n, |args|))
  {
    var c, f := IncArgCount(s), Token.Function(name, id, n);
    OpenedFacts(c, f, 0, OpenParen, |PrintList(args)|);
    ParseList(Opened(c, f, 0, OpenParen), args);
    GroupParsed(c, f, 0, OpenParen, CloseParen, true, PrintList(args), |args|, PlainCount(args), CompileList(args));
    OpenNamed(s, f, PrintList(args) + [CloseParen]);
  }

  /** An index with no expression, and a match of no or several texts. */
  lemma MissingOperand(s: ParserState, regex: Regex, args: seq<Expr>)
    requires AllAccepted(args) && |PrintList(args)| < I32_RANGE && |args| != 1
    ensures s.lastIsVarOrFnc ==> Run(s, [OpenBracket] + (PrintList([]) + [CloseBracket])) == Err(MissingArrayIndex)
    ensures Run(s, [Token.Regex(regex), OpenParen] + (PrintList(args) + [CloseParen])) == Err(MatchesArity)
  {
    var f, g := BracketCall(true), Token.Regex(regex);
    if s.lastIsVarOrFnc {
      OpenedFacts(s, f, 1, OpenBracket, 0);
      EmptyParsed(Opened(s, f, 1, OpenBracket));
      GroupParsed(s, f, 1, OpenBracket, CloseBracket, true, [], 0, 0, []);
      OpenIndex(s, [] + [CloseBracket]);
    }
    var c := IncArgCount(s);
    OpenedFacts(c, g, 0, OpenParen, |PrintList(args)|);
    ParseList(Opened(c, g, 0, OpenParen), args);
    GroupParsed(c, g, 0, OpenParen, CloseParen, true, PrintList(args), |args|, PlainCount(args), CompileList(args));
    OpenNamed(s, g, PrintList(args) + [CloseParen]);
  }

  lemma AfterOpening(e: Expr) returns (s: ParserState)
    requires Accepted(e) && |Print(e)| < I32_RANGE
    ensures Run(Initial, [OpenParen] + Print(e)) == Ok(s) && Drain(s, 0).operators == [Pending(OpenParen, None)]
  {
    var inside := PushToken(Initial, OpenParen);
    s := ParseExpr(inside, e);
    DelimitedParsed(inside, s, Plain(e), Compile(e), Level(e));
    RunCons(Initial, OpenParen, Print(e));
  }

  lemma WithoutOpening(e: Expr) returns (s: ParserState)
    requires Accepted(e) && |Print(e)| < I32_RANGE
    ensures Run(Initial, Print(e)) == Ok(s) && Drain(s, 0).operators == []
  {
    s := ParseExpr(Initial, e);
    var d := Done(Initial, Plain(e), Compile(e), s.lastIsVarOrFnc);
    assert Drain(s, 0) == Drain(d, 0) == d;
  }

  lemma StepMismatched(s: ParserState, open: Token)
    requires var waiting := Drain(s, 0).operators; waiting == [] || waiting[|waiting| - 1].token != open
    ensures open == OpenParen ==> Step(s, CloseParen) == Err(MismatchedParentheses)
    ensures open == OpenBracket ==> Step(s, CloseBracket) == Err(MismatchedParentheses)
  {
  }

  lemma RefusedLast(ts: seq<Token>, s: ParserState, t: Token)
    requires Run(Initial, ts) == Ok(s) && Step(s, t).Err?
    ensures ParseTokens(ts + [t]) == Err(Step(s, t).error)
  {
    RunSnoc(Initial, ts, t);
  }

  /** Delimiters that do not match are refused, wherever one is missing. */
  lemma Unbalanced(e: Expr)
    requires Accepted(e) && |Print(e)| < I32_RANGE
    ensures ParseTokens([OpenParen] + Print(e) + [CloseBracket]) == Err(MismatchedParentheses)
    ensures ParseTokens([OpenParen] + Print(e)) == Err(InvalidTokenOnStack)
    ensures ParseTokens(Print(e) + [CloseParen]) == Err(MismatchedParentheses)
  {
    var s := AfterOpening(e);
    StepMismatched(s, OpenBracket);
    RefusedLast([OpenParen] + Print(e), s, CloseBracket);
    var s' := WithoutOpening(e);
    StepMismatched(s', OpenParen);
    RefusedLast(Print(e), s', CloseParen);
  }

  // ---- Values ----

  // False are the integer and float zero, the empty string and the empty array, and nothing else.
  predicate Truthy(v: Value) {
    v != Int(0) && v != Float(0.0) && v != Str("") && v != Arr([])
  }

  function Bit(b: bool): Value {
    if b then Int(1) else Int(0)
  }

  lemma TruthIs(v: Value)
    ensures ToBool(v) == Truthy(v)
  {
  }

  /** What the logical operators leave for the values on top of any stack. */
  lemma LogicalOperators(env: Env, stack: seq<Value>, l: Value, r: Value, c: seq<string>)
    ensures Reaches(env, [Item.Unary(Not)], Machine(stack + [r], c), Machine(stack + [Bit(!Truthy(r))], c))
    ensures Reaches(env, [Item.Binary(And)], Machine(stack + [l, r], c), Machine(stack + [Bit(Truthy(l) && Truthy(r))], c))
    ensures Reaches(env, [Item.Binary(Or)], Machine(stack + [l, r], c), Machine(stack + [Bit(Truthy(l) || Truthy(r))], c))
    ensures Reaches(env, [Item.Binary(Xor)], Machine(stack + [l, r], c), Machine(stack + [Bit(Truthy(l) != Truthy(r))], c))
  {
    TruthIs(l);
    TruthIs(r);
    assert Pop(stack + [r]) == stack && Pop(stack + [l, r]) == stack + [l] && Pop(stack + [l]) == stack;
    ReachItem(env, Item.Unary(Not), Machine(stack + [r], c));
    ReachItem(env, Item.Binary(And), Machine(stack + [l, r], c));
    ReachItem(env, Item.Binary(Or), Machine(stack + [l, r], c));
    ReachItem(env, Item.Binary(Xor), Machine(stack + [l, r], c));
  }

  /** The other operators are those of the environment, operands in the order they were pushed. */
  lemma ArithmeticOperators(env: Env, stack: seq<Value>, op: BinaryOperator, l: Value, r: Value, c: seq<string>)
    requires op !in {And, Or, Xor}
    ensures Reaches(env, [Item.Unary(Minus)], Machine(stack + [r], c), Machine(stack + [env.negate(r)], c))
    ensures Reaches(env, [Item.Binary(op)], Machine(stack + [l, r], c), Machine(stack + [env.arithmetic(op, l, r)], c))
  {
    assert Pop(stack + [r]) == stack && Pop(stack + [l, r]) == stack + [l] && Pop(stack + [l]) == stack;
    ReachItem(env, Item.Unary(Minus), Machine(stack + [r], c));
    ReachItem(env, Item.Binary(op), Machine(stack + [l, r], c));
  }

  /** `&&` and `||` between any trees: the left value if it decides, and otherwise 0 or 1. */
  lemma ShortCircuits(env: Env, l: Expr, r: Expr, m: Machine)
    requires Accepted(l) && Accepted(r) && |Compile(l)| + |Compile(r)| + 2 < U32_RANGE
    ensures var (lv, c) := Meaning(env, l, m.captures);
      var (rv, c') := Meaning(env, r, c);
      && Pushes(env, Compile(Bin(And, l, r)), m, [if Truthy(lv) then Bit(Truthy(rv)) else lv], if Truthy(lv) then c' else c)
      && Pushes(env, Compile(Bin(Or, l, r)), m, [if Truthy(lv) then lv else Bit(Truthy(rv))], if Truthy(lv) then c else c')
  {
    var (lv, c) := Meaning(env, l, m.captures);
    TruthIs(lv);
    TruthIs(Meaning(env, r, c).0);
    ExecCompile(env, Bin(And, l, r), m);
    ExecCompile(env, Bin(Or, l, r), m);
  }

  /** Constants, captures and matches on any machine. */
  lemma LeavesAndMatches(env: Env, i: int, f: real, s: string, n: u32, regex: Regex, v: Value, m: Machine)
    ensures Pushes(env, [Item.Constant(IntegerConstant(i))], m, [Int(i)], m.captures)
    ensures Pushes(env, [Item.Constant(FloatConstant(f))], m, [Float(f)], m.captures)
    ensures Pushes(env, [Item.Constant(StringConstant(s))], m, [Str(s)], m.captures)
    ensures Pushes(env, [Item.Capture(n)], m, [Str(if n < |m.captures| then m.captures[n] else "")], m.captures)
    ensures var found := env.captures(regex, env.toText(v));
      Reaches(env, [Item.Regex(regex)], Machine(m.stack + [v], m.captures),
              if found.Some? && found.value != [] then Machine(m.stack + [Int(1)], found.value)
              else Machine(m.stack + [Int(0)], []))
  {
    ReachItem(env, Item.Constant(IntegerConstant(i)), m);
    ReachItem(env, Item.Constant(FloatConstant(f)), m);
    ReachItem(env, Item.Constant(StringConstant(s)), m);
    ReachItem(env, Item.Capture(n), m);
    assert Pop(m.stack + [v]) == m.stack;
    ReachItem(env, Item.Regex(regex), Machine(m.stack + [v], m.captures));
  }

  /** An index into any value: an array gives the item at that place, counted from the left; any other value is its
      own first item; past the end there is the empty string. */
  lemma IndexByKind(env: Env, stack: seq<Value>, v: Value, iv: Value, c: seq<string>)
    ensures var k := env.toIndex(iv);
      Reaches(env, [ArrayAccess], Machine(stack + [v, iv], c),
              Machine(stack + [if v.Arr? then (if k < |v.items| then v.items[k] else Str(""))
                               else if k == 0 then v else Str("")], c))
  {
    assert Pop(stack + [v, iv]) == stack + [v] && Pop(stack + [v]) == stack;
    ReachItem(env, ArrayAccess, Machine(stack + [v, iv], c));
  }

  // The captures that item k of a list sees.
  function CapturesAt(env: Env, es: seq<Expr>, k: nat, captures: seq<string>): seq<string>
    requires k <= |es|
    decreases k
  {
    if k == 0 then captures else Meaning(env, es[k - 1], CapturesAt(env, es, k - 1, captures)).1
  }

  lemma {:induction false} CapturesFrom(env: Env, es: seq<Expr>, k: nat, captures: seq<string>)
    requires 1 <= k <= |es|
    ensures CapturesAt(env, es, k, captures) == CapturesAt(env, es[1..], k - 1, Meaning(env, es[0], captures).1)
    decreases k
  {
    if k > 1 {
      CapturesFrom(env, es, k - 1, captures);
      assert es[1..][k - 2] == es[k - 1];
    } else {
      assert CapturesAt(env, es, 0, captures) == captures;
    }
  }

  lemma {:induction false} ListedAt(env: Env, es: seq<Expr>, k: nat, captures: seq<string>)
    requires k < |es|
    ensures MeaningList(env, es, captures).0[k] == Meaning(env, es[k], CapturesAt(env, es, k, captures)).0
    decreases |es|
  {
    if k > 0 {
      ListedAt(env, es[1..], k - 1, Meaning(env, es[0], captures).1);
      CapturesFrom(env, es, k, captures);
    }
  }

  /** The code of `[items][i]` pushes the value of the item at that place, or the empty string past the end. */
  lemma IndexPicks(env: Env, items: seq<Expr>, i: Expr, m: Machine)
    requires Accepted(Index(Array(items), i)) && |Compile(Index(Array(items), i))| < U32_RANGE
    ensures var (iv, c) := Meaning(env, i, MeaningList(env, items, m.captures).1);
      var k := env.toIndex(iv);
      Pushes(env, Compile(Index(Array(items), i)), m,
             [if k < |items| then Meaning(env, items[k], CapturesAt(env, items, k, m.captures)).0 else Str("")], c)
  {
    ExecCompile(env, Index(Array(items), i), m);
    var (vs, c0) := MeaningList(env, items, m.captures);
    var (iv, c) := Meaning(env, i, c0);
    var k := env.toIndex(iv);
    assert Meaning(env, Array(items), m.captures) == (Arr(vs), c0);
    assert Meaning(env, Index(Array(items), i), m.captures) == (if k < |vs| then vs[k] else Str(""), c);
    if k < |items| {
      ListedAt(env, items, k, m.captures);
    }
  }

  /** A call is made on the values of its arguments, each at its own place. */
  lemma CallTakes(env: Env, e: Expr, m: Machine) returns (vs: seq<Value>)
    requires e.Call? && Accepted(e) && |Compile(e)| < U32_RANGE
    ensures |vs| == |e.args|
    ensures forall k | 0 <= k < |vs| :: vs[k] == Meaning(env, e.args[k], CapturesAt(env, e.args, k, m.captures)).0
    ensures Pushes(env, Compile(e), m, [env.call(e.id, vs)], MeaningList(env, e.args, m.captures).1)
  {
    ExecCompile(env, e, m);
    vs := MeaningList(env, e.args, m.captures).0;
    forall k | 0 <= k < |vs| ensures vs[k] == Meaning(env, e.args[k], CapturesAt(env, e.args, k, m.captures)).0 {
      ListedAt(env, e.args, k, m.captures);
    }
  }

  // ---- Blocks ----

  // The captures left by the first k conditions, each run from an empty stack.
  function ConditionCaptures(env: Env, ifThen: seq<IfThen>, k: nat, captures: seq<string>): seq<string>
    requires k <= |ifThen|
    decreases k
  {
    if k == 0 then captures
    else Exec(env, ifThen[k - 1].expr, Machine([], ConditionCaptures(env, ifThen, k - 1, captures))).captures
  }

  function Condition(env: Env, ifThen: seq<IfThen>, k: nat, captures: seq<string>): Value
    requires k < |ifThen|
  {
    Outcome(Exec(env, ifThen[k].expr, Machine([], ConditionCaptures(env, ifThen, k, captures))))
  }

  lemma {:induction false} ConditionsFrom(env: Env, ifThen: seq<IfThen>, k: nat, captures: seq<string>)
    requires 1 <= k <= |ifThen|
    ensures ConditionCaptures(env, ifThen, k, captures)
         == ConditionCaptures(env, ifThen[1..], k - 1, Exec(env, ifThen[0].expr, Machine([], captures)).captures)
    decreases k
  {
    if k > 1 {
      ConditionsFrom(env, ifThen, k - 1, captures);
      assert ifThen[1..][k - 2] == ifThen[k - 1];
    } else {
      assert ConditionCaptures(env, ifThen, 0, captures) == captures;
    }
  }

  lemma ConditionRest(env: Env, ifThen: seq<IfThen>, i: nat, captures: seq<string>)
    requires i + 1 < |ifThen|
    ensures Condition(env, ifThen, i + 1, captures)
         == Condition(env, ifThen[1..], i, Exec(env, ifThen[0].expr, Machine([], captures)).captures)
  {
    ConditionsFrom(env, ifThen, i + 1, captures);
  }

  lemma BlockStep(env: Env, ifThen: seq<IfThen>, otherwise: seq<Item>, captures: seq<string>, next: seq<string>)
    requires ifThen != [] && next == ConditionCaptures(env, ifThen, 1, captures)
    ensures next == Exec(env, ifThen[0].expr, Machine([], captures)).captures
    ensures RunBlock(env, ifThen, otherwise, captures)
         == if Truthy(Condition(env, ifThen, 0, captures)) then Outcome(Exec(env, ifThen[0].consequence, Machine([], next)))
            else RunBlock(env, ifThen[1..], otherwise, next)
  {
    assert ConditionCaptures(env, ifThen, 0, captures) == captures;
    TruthIs(Condition(env, ifThen, 0, captures));
  }

  /** The first condition that is true chooses its branch, and the default is chosen when none is. */
  lemma {:induction false} FirstTrueDecides(env: Env, ifThen: seq<IfThen>, otherwise: seq<Item>, k: nat, captures: seq<string>)
    requires k <= |ifThen|
    requires forall i | 0 <= i < k :: !Truthy(Condition(env, ifThen, i, captures))
    requires k < |ifThen| ==> Truthy(Condition(env, ifThen, k, captures))
    ensures RunBlock(env, ifThen, otherwise, captures)
         == if k < |ifThen| then Outcome(Exec(env, ifThen[k].consequence, Machine([], ConditionCaptures(env, ifThen, k + 1, captures))))
            else Outcome(Exec(env, otherwise, Machine([], ConditionCaptures(env, ifThen, k, captures))))
    decreases |ifThen|
  {
    if ifThen != [] {
      var next := ConditionCaptures(env, ifThen, 1, captures);
      BlockStep(env, ifThen, otherwise, captures, next);
      if k > 0 {
        forall i | 0 <= i < |ifThen| - 1
          ensures Condition(env, ifThen[1..], i, next) == Condition(env, ifThen, i + 1, captures)
        {
          ConditionRest(env, ifThen, i, captures);
        }
        FirstTrueDecides(env, ifThen[1..], otherwise, k - 1, next);
        ConditionsFrom(env, ifThen, k, captures);
        if k < |ifThen| {
          ConditionsFrom(env, ifThen, k + 1, captures);
        }
      }
    }
  }
}
