/** Expressions that lack their first operand. Right after a bracket or a unary operator a minus is read as
    a subtraction, so `[-x, y]` and `!-x` reach the parser with nothing on the left of an operator. */
module ExpressionBrackets {
  import opened Wrappers
  import opened Sequences
  import opened Expressions
  import opened ExpressionParser
  import opened ExpressionTrees
  import opened ExpressionCompiler
  import opened ExpressionEval
  import opened ExpressionText

  const TIGHTER := Precedence(Subtract) + 1

  // The unary operators and the minus before an operand, then further operators that bind no tighter.
  datatype Lacking =
    | Less(before: seq<UnaryOperator>, operand: Expr)
    | Then(op: BinaryOperator, left: Lacking, right: Expr)

  function LackingLevel(l: Lacking): (level: int)
    ensures 1 <= level <= 7
  {
    match l
    case Less(_, _) => Precedence(Subtract)
    case Then(op, _, _) => Precedence(op)
  }

  // No part of it needs parentheses.
  predicate Grouped(l: Lacking) {
    l.Then? ==> Grouped(l.left) && Precedence(l.op) <= LackingLevel(l.left)
  }

  function UnaryTokens(us: seq<UnaryOperator>): seq<Token> {
    if us == [] then [] else [Token.Unary(us[0])] + UnaryTokens(us[1..])
  }

  function LackingTokens(l: Lacking): seq<Token> {
    match l
    case Less(us, x) => UnaryTokens(us) + ([Token.Binary(Subtract)] + PrintAt(x, TIGHTER))
    case Then(op, left, right) => LackingTokens(left) + ([Token.Binary(op)] + PrintAt(right, Precedence(op) + 1))
  }

  // Unary operators are emitted from the inside out.
  function UnaryCode(us: seq<UnaryOperator>): seq<Item> {
    if us == [] then [] else UnaryCode(us[1..]) + [Item.Unary(us[0])]
  }

  /** Its code: the operators act on a value the expression does not push. */
  function LackingCode(l: Lacking): seq<Item> {
    match l
    case Less(us, x) => CompileBinary(Subtract, UnaryCode(us), Compile(x))
    case Then(op, left, right) => CompileBinary(op, LackingCode(left), Compile(right))
  }

  predicate LackingAccepted(l: Lacking) {
    match l
    case Less(_, x) => Accepted(x)
    case Then(_, left, right) => LackingAccepted(left) && Accepted(right)
  }

  // The state with the unary operators pushed.
  function Stacked(ops: seq<Pending>, us: seq<UnaryOperator>): seq<Pending>
    decreases us
  {
    if us == [] then ops else Stacked(ops + [Pending(Token.Unary(us[0]), None)], us[1..])
  }

  lemma {:induction false} UnariesRun(s: ParserState, us: seq<UnaryOperator>, rest: seq<Token>)
    requires !s.lastIsVarOrFnc
    ensures Run(s, UnaryTokens(us) + rest) == Run(s.(operators := Stacked(s.operators, us)), rest)
    decreases us
  {
    if us == [] {
      assert UnaryTokens(us) + rest == rest;
    } else {
      var t := Token.Unary(us[0]);
      assert UnaryTokens(us) + rest == [t] + (UnaryTokens(us[1..]) + rest);
      RunCons(s, t, UnaryTokens(us[1..]) + rest);
      UnariesRun(PushToken(s, t), us[1..], rest);
    }
  }

  lemma {:induction false} UnariesDrain(s: ParserState, us: seq<UnaryOperator>, m: int)
    ensures Drain(s.(operators := Stacked(s.operators, us)), m) == Drain(s.(output := s.output + UnaryCode(us)), m)
    decreases us
  {
    if us == [] {
      assert s.output + [] == s.output;
    } else {
      var p := Pending(Token.Unary(us[0]), None);
      var code := UnaryCode(us[1..]);
      UnariesDrain(s.(operators := s.operators + [p]), us[1..], m);
      var s' := s.(output := s.output + code);
      DrainPush(s', p, m);
      assert s.output + code + [Item.Unary(us[0])] == s.output + UnaryCode(us);
    }
  }

  // Where an expression of the level may start, nothing is drained for an operator of that level or above.
  lemma ContextKeeps(s: ParserState, level: int, p: int)
    requires Context(s.operators, level) && level <= p < UNARY_LEVEL
    ensures Context(s.operators, p) && Drain(s, p) == s
  {
  }

  // The state before the operand, seen as the state after a left operand made of the unary operators.
  function AfterLeft(base: ParserState, op: BinaryOperator, cl: seq<Item>): ParserState {
    PushBinary(Done(base, false, cl, false).(argCount := base.argCount), op)
  }

  lemma MinusStep(s: ParserState, us: seq<UnaryOperator>, level: int)
    requires !s.lastIsVarOrFnc && Context(s.operators, level) && level <= Precedence(Subtract)
    ensures Step(s.(operators := Stacked(s.operators, us)), Token.Binary(Subtract))
         == Ok(AfterLeft(DecArgCount(s), Subtract, UnaryCode(us)))
  {
    var base := DecArgCount(s);
    UnariesDrain(base, us, Precedence(Subtract));
    ContextKeeps(base.(output := base.output + UnaryCode(us)), level, Precedence(Subtract));
  }

  lemma AfterLeftContext(base: ParserState, op: BinaryOperator, cl: seq<Item>)
    ensures !AfterLeft(base, op, cl).lastIsVarOrFnc
    ensures AfterLeft(base, op, cl).argCount == base.argCount
    ensures forall level | Precedence(op) < level :: Context(AfterLeft(base, op, cl).operators, level)
  {
  }

  // The right operand of an operator whose left operand is known only by its code.
  lemma RightRun(base: ParserState, op: BinaryOperator, cl: seq<Item>, r: Expr, tr: seq<Token>) returns (s': ParserState)
    requires Context(base.operators, Precedence(op)) && tr == PrintAt(r, Precedence(op) + 1)
    requires Room(base.argCount, |tr|) && |tr| < I32_RANGE
    ensures Accepted(r) ==>
              && Run(AfterLeft(base, op, cl), tr) == Ok(s')
              && Parsed(base, s', false, CompileBinary(op, cl, Compile(r)), Precedence(op))
    ensures !Accepted(r) ==> Run(AfterLeft(base, op, cl), tr).Err?
  {
    var p := Precedence(op);
    AfterLeftContext(base, op, cl);
    s' := ParseAt(AfterLeft(base, op, cl), r, p + 1);
    if Accepted(r) {
      CompileLength(r);
      RightParsed(base, s', op, false, cl, PlainAt(r, p + 1), Compile(r), EffectiveLevel(r, p + 1));
    }
  }

  lemma DecRoom(s: ParserState, n: nat)
    requires Room(s.argCount, n)
    ensures Room(DecArgCount(s).argCount, n)
  {
  }

  lemma LessParsed(s: ParserState, us: seq<UnaryOperator>, x: Expr) returns (s': ParserState)
    requires !s.lastIsVarOrFnc && Context(s.operators, Precedence(Subtract))
    requires Room(s.argCount, |PrintAt(x, TIGHTER)|) && |PrintAt(x, TIGHTER)| < I32_RANGE
    ensures Accepted(x) ==>
              && Run(s, LackingTokens(Less(us, x))) == Ok(s')
              && Parsed(DecArgCount(s), s', false, LackingCode(Less(us, x)), Precedence(Subtract))
    ensures !Accepted(x) ==> Run(s, LackingTokens(Less(us, x))).Err?
  {
    var tx, base, stacked := PrintAt(x, TIGHTER), DecArgCount(s), s.(operators := Stacked(s.operators, us));
    UnariesRun(s, us, [Token.Binary(Subtract)] + tx);
    MinusStep(s, us, Precedence(Subtract));
    RunCons(stacked, Token.Binary(Subtract), tx);
    DecRoom(s, |tx|);
    s' := RightRun(base, Subtract, UnaryCode(us), x, tx);
  }

  // What the minus leaves behind: the unary operators and every pending operator that binds as tightly are emitted.
  function Unstacked(s: ParserState, us: seq<UnaryOperator>): ParserState {
    Drain(DecArgCount(s).(output := s.output + UnaryCode(us)), Precedence(Subtract))
  }

  /** After pending operators that bind as tightly, as in `a * !-x`, these are emitted before the operand of the
      minus is read, each with what the stack then holds for its right operand. */
  lemma LessAfterTight(s: ParserState, us: seq<UnaryOperator>, x: Expr) returns (s': ParserState)
    requires !s.lastIsVarOrFnc && Context(Unstacked(s, us).operators, Precedence(Subtract))
    requires Room(s.argCount, |PrintAt(x, TIGHTER)|) && |PrintAt(x, TIGHTER)| < I32_RANGE
    ensures Accepted(x) ==>
              && Run(s, LackingTokens(Less(us, x))) == Ok(s')
              && Parsed(Unstacked(s, us), s', false, CompileBinary(Subtract, [], Compile(x)), Precedence(Subtract))
    ensures !Accepted(x) ==> Run(s, LackingTokens(Less(us, x))).Err?
  {
    var tx, base, stacked := PrintAt(x, TIGHTER), Unstacked(s, us), s.(operators := Stacked(s.operators, us));
    UnariesRun(s, us, [Token.Binary(Subtract)] + tx);
    UnariesDrain(DecArgCount(s), us, Precedence(Subtract));
    RunCons(stacked, Token.Binary(Subtract), tx);
    assert base.output + [] == base.output;
    DrainFrame(DecArgCount(s).(output := s.output + UnaryCode(us)), DecArgCount(s).argCount, Precedence(Subtract));
    DecRoom(s, |tx|);
    s' := RightRun(base, Subtract, [], x, tx);
  }

  // What ParseLacking states, for a state and an outcome.
  ghost predicate LackingParsed(s: ParserState, s': ParserState, l: Lacking) {
    && (LackingAccepted(l) ==>
          && Run(s, LackingTokens(l)) == Ok(s')
          && Parsed(DecArgCount(s), s', false, LackingCode(l), LackingLevel(l)))
    && (!LackingAccepted(l) ==> Run(s, LackingTokens(l)).Err?)
  }

  lemma ThenParsed(s: ParserState, sl: ParserState, op: BinaryOperator, left: Lacking, right: Expr) returns (s': ParserState)
    requires Context(s.operators, Precedence(op)) && Precedence(op) <= LackingLevel(left)
    requires LackingParsed(s, sl, left)
    requires var n := 1 + |PrintAt(right, Precedence(op) + 1)|; Room(s.argCount, n) && n < I32_RANGE
    ensures LackingParsed(s, s', Then(op, left, right))
  {
    var base, tr, tl := DecArgCount(s), PrintAt(right, Precedence(op) + 1), LackingTokens(left);
    RunConcat(s, tl, [Token.Binary(op)] + tr);
    s' := sl;
    if LackingAccepted(left) {
      DecRoom(s, 1 + |tr|);
      LeftParsed(base, sl, op, false, LackingCode(left), LackingLevel(left));
      RunCons(sl, Token.Binary(op), tr);
      s' := RightRun(base, op, LackingCode(left), right, tr);
    }
  }

  /** Wherever an expression of its level may start, one that lacks its first operand is read to its code, for
      an argument count one lower, and is refused exactly when a part of it is. */
  lemma {:induction false} ParseLacking(s: ParserState, l: Lacking) returns (s': ParserState)
    requires !s.lastIsVarOrFnc && Grouped(l) && Context(s.operators, LackingLevel(l))
    requires Room(s.argCount, |LackingTokens(l)|) && |LackingTokens(l)| < I32_RANGE
    ensures LackingParsed(s, s', l)
    decreases l
  {
    match l
    case Less(us, x) => s' := LessParsed(s, us, x);
    case Then(op, left, right) =>
      ContextKeeps(s, Precedence(op), LackingLevel(left));
      var sl := ParseLacking(s, left);
      s' := ThenParsed(s, sl, op, left, right);
  }

  // The later items of a list and its closing delimiter.
  function RestTokens(es: seq<Expr>, close: Token): seq<Token> {
    if es == [] then [close] else [Comma] + (PrintList(es) + [close])
  }

  lemma {:induction false} DrainTwice(s: ParserState)
    ensures Drain(Drain(s, 0), 0) == Drain(s, 0)
    decreases |s.operators|
  {
    if s.operators != [] && Drainable(s.operators[|s.operators| - 1].token, 0) {
      DrainTwice(EmitTop(s));
    }
  }

  // A comma and a closing delimiter drain first.
  lemma DrainsFirst(s: ParserState, t: Token, rest: seq<Token>)
    requires t == Comma || t == CloseBracket || t == CloseParen
    ensures Run(s, [t] + rest) == Run(Drain(s, 0), [t] + rest)
  {
    DrainTwice(s);
    RunCons(s, t, rest);
    RunCons(Drain(s, 0), t, rest);
  }

  // The open call, whatever was read last.
  function Standing(c: ParserState, f: Token, args: int, open: Token, last: bool): ParserState {
    Opened(c, f, args, open).(lastIsVarOrFnc := last)
  }

  lemma CountedBack(c: ParserState, f: Token, args: int, open: Token, code: seq<Item>, last: bool)
    requires 0 <= args < I32_RANGE
    ensures Done(DecArgCount(Opened(c, f, args, open)), false, code, last)
         == Standing(c.(output := c.output + code), f, args, open, last)
  {
    var base := DecArgCount(Opened(c, f, args, open));
    assert base.argCount == c.argCount + [args - 1];
    assert MapLast(base.argCount, SaturatingInc) == c.argCount + [args];
  }

  lemma DelimiterOnTop(c: ParserState, f: Token, args: int, open: Token)
    ensures var ops := DecArgCount(Opened(c, f, args, open)).operators; ops != [] && ops[|ops| - 1].token == open
  {
  }

  // Once the first item is read, the call stands as if it had only begun, with the item's code before it.
  lemma LackingDrains(c: ParserState, f: Token, args: int, open: Token, s': ParserState, code: seq<Item>, level: int)
    requires open.OpenParen? || open.OpenBracket?
    requires 0 <= args < I32_RANGE && 1 <= level
    requires Parsed(DecArgCount(Opened(c, f, args, open)), s', false, code, level)
    ensures Drain(s', 0) == Standing(c.(output := c.output + code), f, args, open, s'.lastIsVarOrFnc)
  {
    DelimiterOnTop(c, f, args, open);
    DelimitedParsed(DecArgCount(Opened(c, f, args, open)), s', false, code, level);
    CountedBack(c, f, args, open, code, s'.lastIsVarOrFnc);
  }

  lemma StandingStays(c: ParserState, f: Token, args: int, open: Token, last: bool)
    requires open.OpenParen? || open.OpenBracket?
    ensures Drain(Standing(c, f, args, open, last), 0) == Standing(c, f, args, open, last)
  {
  }

  lemma StandingLands(c: ParserState, f: Token, args: int, open: Token, last: bool)
    requires IsCall(f) && (open.OpenParen? || open.OpenBracket?)
    ensures Landing(Ok(Standing(c, f, args, open, last)))
         == Some(ParserState(c.output, c.operators + [Pending(Recounted(f, 0), None)] + [Pending(open, None)],
                             c.argCount + [args], false))
  {
    StandingStays(c, f, args, open, last);
  }

  lemma NoRest(c: ParserState, f: Token, args: int, open: Token, close: Token, last: bool)
    requires IsCall(f) && Delimiters(open, close)
    ensures args == Expected(f, 0) ==>
              Run(Standing(c, f, args, open, last), [close])
              == Ok(c.(output := c.output + [Completed(f, 0)], lastIsVarOrFnc := true))
    ensures args != Expected(f, 0) ==> Run(Standing(c, f, args, open, last), [close]).Err?
  {
    var s := Standing(c, f, args, open, last);
    RunOne(s, close);
    StandingLands(c, f, args, open, last);
    CloseLanded(s, c, f, 0, args, c.output, open, close);
  }

  lemma StandingComma(c: ParserState, f: Token, args: int, open: Token, last: bool)
    requires open.OpenParen? || open.OpenBracket?
    ensures Step(Standing(c, f, args, open, last), Comma) == Ok(Opened(c, f, args, open))
  {
    StandingStays(c, f, args, open, last);
  }

  lemma CommaRest(c: ParserState, f: Token, args: int, open: Token, last: bool, rest: seq<Token>)
    requires open.OpenParen? || open.OpenBracket?
    ensures Run(Standing(c, f, args, open, last), [Comma] + rest) == Run(Opened(c, f, args, open), rest)
  {
    var s := Standing(c, f, args, open, last);
    StandingComma(c, f, args, open, last);
    RunCons(s, Comma, rest);
  }

  lemma RestParsed(c: ParserState, f: Token, args: int, open: Token, close: Token, last: bool, es: seq<Expr>)
    requires IsCall(f) && Delimiters(open, close) && 0 <= args && args + |PrintList(es)| < I32_RANGE
    ensures var r, k := Run(Standing(c, f, args, open, last), RestTokens(es, close)), PlainCount(es);
      if AllAccepted(es) && args + |es| == Expected(f, k) then
        r == Ok(c.(output := c.output + (CompileList(es) + [Completed(f, k)]), lastIsVarOrFnc := true))
      else r.Err?
  {
    if es == [] {
      NoRest(c, f, args, open, close, last);
      assert [] + [Completed(f, 0)] == [Completed(f, 0)];
    } else {
      CommaRest(c, f, args, open, last, PrintList(es) + [close]);
      OpenedFacts(c, f, args, open, |PrintList(es)|);
      ParseList(Opened(c, f, args, open), es);
      GroupParsed(c, f, args, open, close, AllAccepted(es), PrintList(es), |es|, PlainCount(es), CompileList(es));
    }
  }

  // Reading the first item, up to the comma or delimiter after it.
  lemma LackingRun(c: ParserState, f: Token, args: int, open: Token, l: Lacking, t: Token, rest: seq<Token>) returns (last: bool)
    requires open.OpenParen? || open.OpenBracket?
    requires Grouped(l) && 0 <= args && args + |LackingTokens(l)| < I32_RANGE
    requires t == Comma || t == CloseBracket || t == CloseParen
    ensures LackingAccepted(l) ==>
              Run(Opened(c, f, args, open), LackingTokens(l) + ([t] + rest))
              == Run(Standing(c.(output := c.output + LackingCode(l)), f, args, open, last), [t] + rest)
    ensures !LackingAccepted(l) ==> Run(Opened(c, f, args, open), LackingTokens(l) + ([t] + rest)).Err?
  {
    var s := Opened(c, f, args, open);
    OpenedFacts(c, f, args, open, |LackingTokens(l)|);
    var s' := ParseLacking(s, l);
    RunConcat(s, LackingTokens(l), [t] + rest);
    last := s'.lastIsVarOrFnc;
    if LackingAccepted(l) {
      LackingDrains(c, f, args, open, s', LackingCode(l), LackingLevel(l));
      DrainsFirst(s', t, rest);
    }
  }

  /** A list whose first item lacks its first operand: the item's code stands before the call, which counts
      the later items alone and is accepted exactly when they are as many as it expects. */
  lemma LackingFirst(c: ParserState, f: Token, args: int, open: Token, close: Token, l: Lacking, es: seq<Expr>)
    requires IsCall(f) && Delimiters(open, close) && Grouped(l)
    requires 0 <= args && args + |LackingTokens(l)| + |PrintList(es)| < I32_RANGE
    ensures var r, k := Run(Opened(c, f, args, open), LackingTokens(l) + RestTokens(es, close)), PlainCount(es);
      if LackingAccepted(l) && AllAccepted(es) && args + |es| == Expected(f, k) then
        r == Ok(c.(output := c.output + (LackingCode(l) + (CompileList(es) + [Completed(f, k)])), lastIsVarOrFnc := true))
      else r.Err?
  {
    var t, rest := if es == [] then close else Comma, if es == [] then [] else PrintList(es) + [close];
    assert RestTokens(es, close) == [t] + rest;
    var last := LackingRun(c, f, args, open, l, t, rest);
    var code, tail := LackingCode(l), CompileList(es) + [Completed(f, PlainCount(es))];
    RestParsed(c.(output := c.output + code), f, args, open, close, last, es);
    Associate(c.output, code, tail);
  }

  // The literal `[l, es]` and its code.

  function LiteralTokens(l: Lacking, es: seq<Expr>): seq<Token> {
    [OpenBracket] + (LackingTokens(l) + RestTokens(es, CloseBracket))
  }

  function LiteralCode(l: Lacking, es: seq<Expr>): seq<Item> {
    LackingCode(l) + (CompileList(es) + [ArrayBuild(Wrap32(|es|))])
  }

  predicate LiteralAccepted(l: Lacking, es: seq<Expr>) {
    LackingAccepted(l) && AllAccepted(es) && PlainCount(es) == |es|
  }

  /** Wherever a literal may stand, one that begins with a minus is read as one expression. It is accepted
      exactly when its parts are, and compiles to the code of its first item and then the array of the others. */
  lemma LeadingMinusParses(s: ParserState, l: Lacking, es: seq<Expr>)
    requires !s.lastIsVarOrFnc && Grouped(l) && |LackingTokens(l)| + |PrintList(es)| < I32_RANGE
    ensures LiteralAccepted(l, es) ==> Run(s, LiteralTokens(l, es)) == Ok(Done(s, true, LiteralCode(l, es), true))
    ensures !LiteralAccepted(l, es) ==> Run(s, LiteralTokens(l, es)).Err?
  {
    var c, f := IncArgCount(s), BracketCall(false);
    OpenLiteral(s, PlainCount(es));
    RunCons(s, OpenBracket, LackingTokens(l) + RestTokens(es, CloseBracket));
    LackingFirst(c, f, 0, OpenBracket, CloseBracket, l, es);
  }

  /** As an index such a list is refused, unless one more item follows: `a[-i]` is no index. */
  lemma LeadingMinusIndex(s: ParserState, l: Lacking, es: seq<Expr>)
    requires s.lastIsVarOrFnc && Grouped(l) && 1 + |LackingTokens(l)| + |PrintList(es)| < I32_RANGE
    ensures LackingAccepted(l) && AllAccepted(es) && |es| == 1 ==>
              Run(s, LiteralTokens(l, es))
              == Ok(s.(output := s.output + (LackingCode(l) + (CompileList(es) + [ArrayAccess]))))
    ensures !(LackingAccepted(l) && AllAccepted(es) && |es| == 1) ==> Run(s, LiteralTokens(l, es)).Err?
  {
    var f := BracketCall(true);
    OpenIndex(s, LackingTokens(l) + RestTokens(es, CloseBracket));
    LackingFirst(s, f, 1, OpenBracket, CloseBracket, l, es);
  }

  // What it evaluates to, given the value it finds on the stack.

  function UnaryMeaning(env: Env, us: seq<UnaryOperator>, v: Value): Value {
    if us == [] then v else ApplyUnary(env, us[0], UnaryMeaning(env, us[1..], v))
  }

  function LackingMeaning(env: Env, l: Lacking, first: Value, captures: seq<string>): (Value, seq<string>) {
    match l
    case Less(us, x) =>
      var (xv, c) := Meaning(env, x, captures);
      (ApplyBinary(env, Subtract, UnaryMeaning(env, us, first), xv), c)
    case Then(op, left, right) =>
      var (lv, c) := LackingMeaning(env, left, first, captures);
      if IsShortCircuit(op) && ToBool(lv) == (op == Or) then (lv, c)
      else
        var (rv, c') := Meaning(env, right, c);
        (ApplyBinary(env, op, lv, rv), c')
  }

  function UnaryMachine(env: Env, us: seq<UnaryOperator>, m: Machine): Machine {
    if us == [] then m else Apply(env, Item.Unary(us[0]), UnaryMachine(env, us[1..], m))
  }

  lemma {:induction false} UnaryReaches(env: Env, us: seq<UnaryOperator>, m: Machine)
    ensures var m' := UnaryMachine(env, us, m);
      && Reaches(env, UnaryCode(us), m, m')
      && Pop(m'.stack) == Pop(m.stack) && Top(m'.stack) == UnaryMeaning(env, us, Top(m.stack))
      && m'.captures == m.captures
    decreases us
  {
    if us == [] {
      forall rest ensures Exec(env, [] + rest, m) == Exec(env, rest, m) {
        assert [] + rest == rest;
      }
    } else {
      UnaryReaches(env, us[1..], m);
      var m1 := UnaryMachine(env, us[1..], m);
      ReachItem(env, Item.Unary(us[0]), m1);
      ReachBoth(env, UnaryCode(us[1..]), [Item.Unary(us[0])], m, m1, UnaryMachine(env, us, m));
    }
  }

  // The machine with its top value replaced.
  function Replaced(m: Machine, v: (Value, seq<string>)): Machine {
    Machine(Pop(m.stack) + [v.0], v.1)
  }

  lemma SubtractReaches(env: Env, code: seq<Item>, m: Machine, xv: Value, c: seq<string>)
    requires Pushes(env, code, m, [xv], c)
    ensures Reaches(env, code + [Item.Binary(Subtract)], m,
                    Machine(Pop(m.stack) + [ApplyBinary(env, Subtract, Top(m.stack), xv)], c))
  {
    var m1 := Machine(m.stack + [xv], c);
    assert Pop(m1.stack) == m.stack;
    ReachItem(env, Item.Binary(Subtract), m1);
    ReachBoth(env, code, [Item.Binary(Subtract)], m, m1,
              Machine(Pop(m.stack) + [ApplyBinary(env, Subtract, Top(m.stack), xv)], c));
  }

  lemma SubtractAfter(env: Env, cl: seq<Item>, cx: seq<Item>, m: Machine, m1: Machine, xv: Value, c: seq<string>)
    requires Reaches(env, cl, m, m1) && Pushes(env, cx, m1, [xv], c)
    ensures Reaches(env, CompileBinary(Subtract, cl, cx), m,
                    Machine(Pop(m1.stack) + [ApplyBinary(env, Subtract, Top(m1.stack), xv)], c))
  {
    SubtractReaches(env, cx, m1, xv, c);
    ReachBoth(env, cl, cx + [Item.Binary(Subtract)], m, m1,
              Machine(Pop(m1.stack) + [ApplyBinary(env, Subtract, Top(m1.stack), xv)], c));
    assert CompileBinary(Subtract, cl, cx) == cl + (cx + [Item.Binary(Subtract)]);
  }

  lemma LessReaches(env: Env, us: seq<UnaryOperator>, x: Expr, m: Machine)
    requires Accepted(x) && |Compile(x)| < U32_RANGE
    ensures Reaches(env, LackingCode(Less(us, x)), m,
                    Replaced(m, LackingMeaning(env, Less(us, x), Top(m.stack), m.captures)))
  {
    var m1 := UnaryMachine(env, us, m);
    UnaryReaches(env, us, m);
    ExecCompile(env, x, m1);
    var (xv, c) := Meaning(env, x, m.captures);
    SubtractAfter(env, UnaryCode(us), Compile(x), m, m1, xv, c);
  }

  lemma CompileFits(x: Expr, level: int)
    requires |PrintAt(x, level)| < I32_RANGE
    ensures |Compile(x)| + 1 < U32_RANGE
  {
    CompileLength(x);
    assert |Print(x)| <= |PrintAt(x, level)|;
  }

  /** On every machine the code takes the value on top, which something else pushed, as its first operand. */
  lemma {:induction false} LackingReaches(env: Env, l: Lacking, m: Machine)
    requires LackingAccepted(l) && |LackingTokens(l)| < I32_RANGE
    ensures Reaches(env, LackingCode(l), m, Replaced(m, LackingMeaning(env, l, Top(m.stack), m.captures)))
    decreases l
  {
    match l
    case Less(us, x) =>
      CompileFits(x, TIGHTER);
      LessReaches(env, us, x, m);
    case Then(op, left, right) =>
      CompileFits(right, Precedence(op) + 1);
      LackingReaches(env, left, m);
      ThenReaches(env, op, left, right, m);
  }

  lemma OperatorReaches(env: Env, op: BinaryOperator, cl: seq<Item>, cr: seq<Item>, m: Machine, stack: seq<Value>,
                        lv: Value, c: seq<string>, rv: Value, c': seq<string>)
    requires |cr| + 1 < U32_RANGE && Reaches(env, cl, m, Machine(stack + [lv], c))
    requires Pushes(env, cr, Machine(stack + [lv], c), [rv], c')
    ensures Reaches(env, CompileBinary(op, cl, cr), m,
                    if IsShortCircuit(op) && ToBool(lv) == (op == Or) then Machine(stack + [lv], c)
                    else Machine(stack + [ApplyBinary(env, op, lv, rv)], c'))
  {
    ReachRight(env, op, cr, stack, lv, c, rv, c');
    ReachBoth(env, cl, ShortCircuit(op, |cr|) + (cr + [Item.Binary(op)]), m, Machine(stack + [lv], c),
              if IsShortCircuit(op) && ToBool(lv) == (op == Or) then Machine(stack + [lv], c)
              else Machine(stack + [ApplyBinary(env, op, lv, rv)], c'));
    assert CompileBinary(op, cl, cr) == cl + (ShortCircuit(op, |cr|) + (cr + [Item.Binary(op)]));
  }

  lemma ThenReaches(env: Env, op: BinaryOperator, left: Lacking, right: Expr, m: Machine)
    requires Accepted(right) && |Compile(right)| + 1 < U32_RANGE
    requires Reaches(env, LackingCode(left), m, Replaced(m, LackingMeaning(env, left, Top(m.stack), m.captures)))
    ensures Reaches(env, LackingCode(Then(op, left, right)), m,
                    Replaced(m, LackingMeaning(env, Then(op, left, right), Top(m.stack), m.captures)))
  {
    var (lv, c) := LackingMeaning(env, left, Top(m.stack), m.captures);
    ExecCompile(env, right, Machine(Pop(m.stack) + [lv], c));
    var (rv, c') := Meaning(env, right, c);
    OperatorReaches(env, op, LackingCode(left), Compile(right), m, Pop(m.stack), lv, c, rv, c');
  }

  // What the first item leaves, and the array of the others.
  function LiteralValues(env: Env, l: Lacking, es: seq<Expr>, first: Value, captures: seq<string>): (seq<Value>, seq<string>) {
    var (v, c) := LackingMeaning(env, l, first, captures);
    var (vs, c') := MeaningList(env, es, c);
    ([v, Arr(vs)], c')
  }

  /** The literal leaves two values: one of the surrounding expression with the first item's operators applied
      to it, and the array of the later items. */
  lemma LeadingMinusTakes(env: Env, l: Lacking, es: seq<Expr>, m: Machine)
    requires LiteralAccepted(l, es) && |LackingTokens(l)| + |PrintList(es)| < I32_RANGE
    ensures var (vs, c) := LiteralValues(env, l, es, Top(m.stack), m.captures);
      Reaches(env, LiteralCode(l, es), m, Machine(Pop(m.stack) + vs, c))
  {
    LackingReaches(env, l, m);
    var (v, c) := LackingMeaning(env, l, Top(m.stack), m.captures);
    var m1 := Machine(Pop(m.stack) + [v], c);
    CompileListLength(es);
    ExecList(env, es, m1);
    var (vs, c') := MeaningList(env, es, c);
    PushItems(env, CompileList(es), ArrayBuild(|es|), m1, vs, c');
    assert Pop(m.stack) + [v] + [Arr(vs)] == Pop(m.stack) + [v, Arr(vs)];
    ReachBoth(env, LackingCode(l), CompileList(es) + [ArrayBuild(|es|)], m, m1, Machine(Pop(m.stack) + [v, Arr(vs)], c'));
  }

  // Code that pushes one value decides the result.
  lemma WholeOutcome(env: Env, code: seq<Item>, m: Machine, vs: seq<Value>, v: Value, c: seq<string>)
    requires Reaches(env, code, m, Machine(vs + [v], c))
    ensures Outcome(Exec(env, code, m)) == v
  {
    assert code + [] == code;
    assert Exec(env, code + [], m) == Exec(env, [], Machine(vs + [v], c));
  }

  lemma WholeParsed(ts: seq<Token>, code: seq<Item>)
    requires Run(Initial, ts) == Ok(Done(Initial, true, code, true))
    ensures ParseTokens(ts) == Ok(code)
  {
    assert [] + code == code;
  }

  /** As a whole expression the literal is the array of its later items: the first is lost. */
  lemma LeadingMinusIsLost(env: Env, l: Lacking, es: seq<Expr>, captures: seq<string>)
    requires Grouped(l) && LiteralAccepted(l, es) && |LackingTokens(l)| + |PrintList(es)| < I32_RANGE
    ensures ParseTokens(LiteralTokens(l, es)) == Ok(LiteralCode(l, es))
    ensures Outcome(Exec(env, LiteralCode(l, es), Machine([], captures)))
         == Arr(MeaningList(env, es, LackingMeaning(env, l, Default, captures).1).0)
  {
    var m := Machine([], captures);
    LeadingMinusParses(Initial, l, es);
    WholeParsed(LiteralTokens(l, es), LiteralCode(l, es));
    LeadingMinusTakes(env, l, es, m);
    var (v, c) := LackingMeaning(env, l, Default, captures);
    var (vs, c') := MeaningList(env, es, c);
    assert [] + [v, Arr(vs)] == [v] + [Arr(vs)];
    WholeOutcome(env, LiteralCode(l, es), m, [v], Arr(vs), c');
  }

  // The call `f(a, [l, es])` of a function of two arguments.

  function NestedTokens(f: Token, a: Expr, l: Lacking, es: seq<Expr>): seq<Token> {
    [f, OpenParen] + (Print(a) + ([Comma] + LiteralTokens(l, es)) + [CloseParen])
  }

  function NestedCode(id: u32, a: Expr, l: Lacking, es: seq<Expr>): seq<Item> {
    Compile(a) + LiteralCode(l, es) + [Item.Function(id, 2)]
  }

  lemma LiteralListed(s: ParserState, l: Lacking, es: seq<Expr>)
    requires Delimited(s) && Room(s.argCount, 1) && Grouped(l) && |LackingTokens(l)| + |PrintList(es)| < I32_RANGE
    ensures ListParsed(s, LiteralAccepted(l, es), LiteralTokens(l, es), 1, 1, LiteralCode(l, es))
  {
    LeadingMinusParses(s, l, es);
    DoneListed(s, LiteralAccepted(l, es), LiteralTokens(l, es), LiteralCode(l, es));
  }

  lemma DoneListed(s: ParserState, ok: bool, ts: seq<Token>, code: seq<Item>)
    requires Delimited(s) && Room(s.argCount, 1)
    requires if ok then Run(s, ts) == Ok(Done(s, true, code, true)) else Run(s, ts).Err?
    ensures ListParsed(s, ok, ts, 1, 1, code)
  {
    SingleDone(s, true, code, true);
    AddItemsTop(s.operators, 1, 1);
  }

  lemma LiteralAfter(s: ParserState, a: Expr, l: Lacking, es: seq<Expr>)
    requires Delimited(s) && Room(s.argCount, 2) && Grouped(l) && |LackingTokens(l)| + |PrintList(es)| < I32_RANGE
    ensures ListParsed(Done(s, Plain(a), Compile(a), false), LiteralAccepted(l, es), LiteralTokens(l, es), 1, 1, LiteralCode(l, es))
  {
    DoneDelimited(s, Plain(a), Compile(a), 1);
    LiteralListed(Done(s, Plain(a), Compile(a), false), l, es);
  }

  lemma NestedListed(s: ParserState, a: Expr, l: Lacking, es: seq<Expr>)
    requires Delimited(s) && Room(s.argCount, |Print(a)| + 1) && |Print(a)| < I32_RANGE
    requires Grouped(l) && |LackingTokens(l)| + |PrintList(es)| < I32_RANGE
    ensures ListParsed(s, Accepted(a) && LiteralAccepted(l, es), Print(a) + ([Comma] + LiteralTokens(l, es)), 2,
                       (if Plain(a) then 1 else 0) + 1, Compile(a) + LiteralCode(l, es))
  {
    LiteralAfter(s, a, l, es);
    PairListed(s, a, LiteralAccepted(l, es), LiteralTokens(l, es), LiteralCode(l, es));
  }

  lemma PairListed(s: ParserState, a: Expr, ok: bool, ts: seq<Token>, code: seq<Item>)
    requires Delimited(s) && Room(s.argCount, |Print(a)|) && |Print(a)| < I32_RANGE
    requires ListParsed(Done(s, Plain(a), Compile(a), false), ok, ts, 1, 1, code)
    ensures ListParsed(s, Accepted(a) && ok, Print(a) + ([Comma] + ts), 2, (if Plain(a) then 1 else 0) + 1, Compile(a) + code)
  {
    ItemThen(s, a, ok, ts, 1, 1, code);
  }

  lemma CallListed(s: ParserState, f: Token, ok: bool, ts: seq<Token>, n: nat, k: nat, code: seq<Item>)
    requires f.Function? && f.id < ARRAY_BUILD && n == AsI32(f.numArgs)
    requires ListParsed(Opened(IncArgCount(s), f, 0, OpenParen), ok, ts, n, k, code)
    ensures ok ==> Run(s, [f, OpenParen] + (ts + [CloseParen]))
                   == Ok(Done(s, true, code + [Item.Function(f.id, f.numArgs)], true))
    ensures !ok ==> Run(s, [f, OpenParen] + (ts + [CloseParen])).Err?
  {
    OpenNamed(s, f, ts + [CloseParen]);
    GroupParsed(IncArgCount(s), f, 0, OpenParen, CloseParen, ok, ts, n, k, code);
  }

  lemma NestedMinusParses(s: ParserState, name: string, id: FunctionId, a: Expr, l: Lacking, es: seq<Expr>)
    requires !s.lastIsVarOrFnc && Grouped(l)
    requires |Print(a)| + 1 < I32_RANGE && |LackingTokens(l)| + |PrintList(es)| < I32_RANGE
    ensures var r, ok := Run(s, NestedTokens(Token.Function(name, id, 2), a, l, es)), Accepted(a) && LiteralAccepted(l, es);
      if ok then r == Ok(Done(s, true, NestedCode(id, a, l, es), true)) else r.Err?
  {
    var f, k := Token.Function(name, id, 2), (if Plain(a) then 1 else 0) + 1;
    OpenedFacts(IncArgCount(s), f, 0, OpenParen, |Print(a)| + 1);
    NestedListed(Opened(IncArgCount(s), f, 0, OpenParen), a, l, es);
    CallListed(s, f, Accepted(a) && LiteralAccepted(l, es), Print(a) + ([Comma] + LiteralTokens(l, es)), 2, k,
               Compile(a) + LiteralCode(l, es));
  }

  lemma NestedMinusTakes(env: Env, id: FunctionId, a: Expr, l: Lacking, es: seq<Expr>, m: Machine)
    requires Accepted(a) && LiteralAccepted(l, es)
    requires |Print(a)| < I32_RANGE && |LackingTokens(l)| + |PrintList(es)| < I32_RANGE
    ensures var (av, c) := Meaning(env, a, m.captures);
      var (vs, c') := LiteralValues(env, l, es, av, c);
      Pushes(env, NestedCode(id, a, l, es), m, [env.call(id, vs)], c')
  {
    CompileLength(a);
    ExecCompile(env, a, m);
    var (av, c) := Meaning(env, a, m.captures);
    var m1 := Machine(m.stack + [av], c);
    assert Pop(m1.stack) == m.stack;
    LeadingMinusTakes(env, l, es, m1);
    var (vs, c') := LiteralValues(env, l, es, av, c);
    ReachBoth(env, Compile(a), LiteralCode(l, es), m, m1, Machine(m.stack + vs, c'));
    PushItems(env, Compile(a) + LiteralCode(l, es), Item.Function(id, 2), m, vs, c');
  }

  // The tokens of a minus and a variable, as written and as read.
  lemma LessVariable(us: seq<UnaryOperator>, x: u32)
    requires |us| <= 1
    ensures Print(Un(Minus, Var(x))) == [NEGATION, Token.Variable(x)]
    ensures LackingTokens(Less(us, Var(x)))
         == (if us == [] then [] else [Token.Unary(us[0])]) + [Token.Binary(Subtract), Token.Variable(x)]
    ensures LackingCode(Less(us, Var(x)))
         == (if us == [] then [] else [Item.Unary(us[0])]) + [Item.Variable(x), Item.Binary(Subtract)]
  {
    assert PrintAt(Var(x), TIGHTER) == [Token.Variable(x)] == PrintAt(Var(x), UNARY_LEVEL);
    if us != [] {
      assert us[1..] == [];
      assert UnaryTokens(us) == [Token.Unary(us[0])] + [];
      assert UnaryCode(us) == [] + [Item.Unary(us[0])];
    }
  }

  lemma ListOne(e: Expr)
    ensures PrintList([e]) == Print(e)
  {
  }

  lemma HeardNested(f: Token, va: Token, vx: Token)
    requires f.Function? && va.Variable? && vx.Variable?
    ensures Heard([f, OpenParen, va, Comma, OpenBracket, NEGATION, vx, CloseBracket, CloseParen], true)
         == [f, OpenParen, va, Comma, OpenBracket, Token.Binary(Subtract), vx, CloseBracket, CloseParen]
  {
    HeardIs([f, OpenParen, va, Comma, OpenBracket, NEGATION, vx, CloseBracket, CloseParen],
            [f, OpenParen, va, Comma, OpenBracket, Token.Binary(Subtract), vx, CloseBracket, CloseParen], true);
  }

  function NestedTree(name: string, id: FunctionId, a: u32, x: u32): Expr {
    Call(name, id, 2, [Var(a), Array([Un(Minus, Var(x))])])
  }

  lemma NestedWritten(name: string, id: FunctionId, a: u32, x: u32)
    ensures Print(NestedTree(name, id, a, x))
         == [Token.Function(name, id, 2), OpenParen, Token.Variable(a), Comma,
             OpenBracket, NEGATION, Token.Variable(x), CloseBracket, CloseParen]
  {
    var item := Array([Un(Minus, Var(x))]);
    LessVariable([], x);
    ListOne(Un(Minus, Var(x)));
    assert Print(item) == [OpenBracket, NEGATION, Token.Variable(x), CloseBracket];
    ListSyntax(Var(a), [item]);
    ListOne(item);
    assert [Var(a), item] == [Var(a)] + [item];
  }

  lemma NestedRead(name: string, id: FunctionId, a: u32, x: u32)
    ensures Heard(Print(NestedTree(name, id, a, x)), true)
         == NestedTokens(Token.Function(name, id, 2), Var(a), Less([], Var(x)), [])
  {
    LessVariable([], x);
    NestedWritten(name, id, a, x);
    HeardNested(Token.Function(name, id, 2), Token.Variable(a), Token.Variable(x));
  }

  function NestedItems(id: u32, a: u32, x: u32): seq<Item> {
    [Item.Variable(a), Item.Variable(x), Item.Binary(Subtract), ArrayBuild(0), Item.Function(id, 2)]
  }

  lemma NestedIs(id: FunctionId, a: u32, x: u32)
    ensures NestedCode(id, Var(a), Less([], Var(x)), []) == NestedItems(id, a, x)
  {
    LessVariable([], x);
  }

  lemma NestedTextParses(name: string, id: FunctionId, a: u32, x: u32)
    ensures ParseTokens(Heard(Print(NestedTree(name, id, a, x)), true)) == Ok(NestedItems(id, a, x))
  {
    var l := Less([], Var(x));
    LessVariable([], x);
    NestedRead(name, id, a, x);
    NestedIs(id, a, x);
    NestedMinusParses(Initial, name, id, Var(a), l, []);
    WholeParsed(NestedTokens(Token.Function(name, id, 2), Var(a), l, []), NestedCode(id, Var(a), l, []));
  }

  /** In a call after another argument, the literal changes that argument: `f(a, [-x])` calls f on `a - x` and
      the empty array, where the tree asks for a and an array of the negation of x. */
  lemma NestedMinusChangesArgument(env: Env, name: string, id: FunctionId, a: u32, x: u32, captures: seq<string>)
    ensures ParseTokens(Heard(Print(NestedTree(name, id, a, x)), true)) == Ok(NestedItems(id, a, x))
    ensures Outcome(Exec(env, NestedItems(id, a, x), Machine([], captures)))
         == env.call(id, [env.arithmetic(Subtract, env.resolve(a), env.resolve(x)), Arr([])])
  {
    var l, m := Less([], Var(x)), Machine([], captures);
    NestedTextParses(name, id, a, x);
    LessVariable([], x);
    NestedIs(id, a, x);
    NestedMinusTakes(env, id, Var(a), l, [], m);
    WholeOutcome(env, NestedItems(id, a, x), m, [],
                 env.call(id, LiteralValues(env, l, [], env.resolve(a), captures).0), captures);
  }

  lemma NotText(x: u32)
    ensures Heard(Print(Un(Not, Un(Minus, Var(x)))), true) == [Token.Unary(Not), Token.Binary(Subtract), Token.Variable(x)]
  {
    var written := [Token.Unary(Not), NEGATION, Token.Variable(x)];
    LessVariable([], x);
    assert Print(Un(Not, Un(Minus, Var(x)))) == written;
    HeardIs(written, [Token.Unary(Not), Token.Binary(Subtract), Token.Variable(x)], true);
  }

  /** A minus after a unary operator: `!-x` evaluates to `1 - x`. */
  lemma MinusAfterUnary(env: Env, x: u32, captures: seq<string>)
    ensures var text := Print(Un(Not, Un(Minus, Var(x))));
      var code := [Item.Unary(Not), Item.Variable(x), Item.Binary(Subtract)];
      && ParseTokens(Heard(text, true)) == Ok(code)
      && Outcome(Exec(env, code, Machine([], captures))) == env.arithmetic(Subtract, Int(1), env.resolve(x))
  {
    var l := Less([Not], Var(x));
    LessVariable([Not], x);
    LackingAlone(env, l, captures);
    assert [Not][1..] == [];
    assert UnaryMeaning(env, [Not], Default) == ApplyUnary(env, Not, UnaryMeaning(env, [], Default)) == Int(1);
    NotText(x);
    assert LackingTokens(l) == [Token.Unary(Not), Token.Binary(Subtract), Token.Variable(x)];
    assert LackingCode(l) == [Item.Unary(Not), Item.Variable(x), Item.Binary(Subtract)];
  }

  /** As a whole expression it is refused exactly when a part of it is, and its first operand is the empty string
      that stands for every value missing from the stack. */
  lemma LackingAlone(env: Env, l: Lacking, captures: seq<string>)
    requires Grouped(l) && |LackingTokens(l)| < I32_RANGE
    ensures LackingAccepted(l) ==>
              && ParseTokens(LackingTokens(l)) == Ok(LackingCode(l))
              && Outcome(Exec(env, LackingCode(l), Machine([], captures))) == LackingMeaning(env, l, Default, captures).0
    ensures !LackingAccepted(l) ==> ParseTokens(LackingTokens(l)).Err?
  {
    var s' := ParseLacking(Initial, l);
    if LackingAccepted(l) {
      var d := Done(Initial, false, LackingCode(l), s'.lastIsVarOrFnc);
      assert Drain(s', 0) == Drain(d, 0) == d;
      assert [] + LackingCode(l) == LackingCode(l);
      var m := Machine([], captures);
      LackingReaches(env, l, m);
      var (v, c) := LackingMeaning(env, l, Default, captures);
      WholeOutcome(env, LackingCode(l), m, [], v, c);
    }
  }
}
