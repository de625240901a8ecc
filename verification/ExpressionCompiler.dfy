/** Parsing the printed form of a tree yields exactly its reference code. */
module ExpressionCompiler {
  import opened Wrappers
  import opened Expressions
  import opened ExpressionParser
  import opened ExpressionTrees

  // What may lie under a tree of the given level: the top of the stack captures no part of it.
  predicate Context(ops: seq<Pending>, level: int) {
    ops == [] ||
    match ops[|ops| - 1].token
    case OpenParen | OpenBracket => true
    case Binary(op) => Precedence(op) < level
    case Unary(_) => UNARY_LEVEL <= level
    case _ => false
  }

  // The argument count can grow by n without saturating.
  predicate Room(args: seq<int>, n: nat) {
    args == [] || (-I32_RANGE <= args[|args| - 1] && args[|args| - 1] + n < I32_RANGE)
  }

  function Counted(s: ParserState, plain: bool): ParserState {
    if plain then IncArgCount(s) else IncArgCount(s).(operators := s.operators)
  }

  // One more argument, with its code at the end of the output.
  function Done(s: ParserState, plain: bool, code: seq<Item>, last: bool): ParserState {
    var c := Counted(s, plain);
    c.(output := s.output + code, lastIsVarOrFnc := last)
  }

  /** s' is s after an expression: once the operators that bind at least as loosely as the
      expression are drained, its code is at the end of the output. */
  ghost predicate Parsed(s: ParserState, s': ParserState, plain: bool, code: seq<Item>, level: int) {
    && s'.argCount == Counted(s, plain).argCount
    && (forall m | m <= level :: Drain(s', m) == Drain(Done(s, plain, code, s'.lastIsVarOrFnc), m))
    && (level >= INDEXED_LEVEL ==> s' == Done(s, plain, code, true))
  }

  lemma {:induction false} DrainFrame(s: ParserState, args: seq<int>, m: int)
    ensures Drain(s.(argCount := args), m) == Drain(s, m).(argCount := args)
    decreases |s.operators|
  {
    if s.operators != [] && Drainable(s.operators[|s.operators| - 1].token, m) {
      DrainFrame(EmitTop(s), args, m);
    }
  }

  // Counting an argument never changes the top of a stack that ends in an operator or delimiter.
  lemma AddItemsTop(ops: seq<Pending>, k: nat, level: int)
    requires Context(ops, level)
    ensures |AddItems(ops, k)| == |ops|
    ensures ops != [] ==> AddItems(ops, k)[|ops| - 1] == ops[|ops| - 1]
    ensures Context(AddItems(ops, k), level)
  {
  }

  lemma AddItemsSkips(ops: seq<Pending>, p: Pending, level: int)
    requires Context(ops, level) && !IsCall(p.token)
    ensures AddItems(ops + [p], 1) == ops + [p]
  {
  }

  lemma IncDec(args: seq<int>)
    requires Room(args, 1)
    ensures MapLast(MapLast(args, SaturatingInc), SaturatingDec) == args
  {
  }

  lemma EmitBinary(out: seq<Item>, op: BinaryOperator, cl: seq<Item>, cr: seq<Item>)
    requires |cr| + 1 < U32_RANGE
    ensures Emit(out + cl + JumpFor(op) + cr,
                 Pending(Token.Binary(op), if IsShortCircuit(op) then Some(|out + cl|) else None))
         == out + CompileBinary(op, cl, cr)
  {
    var at := |out + cl|;
    var o := out + cl + JumpFor(op) + cr;
    if IsShortCircuit(op) {
      assert o[at] == JmpIf(op == Or, 0);
      assert o[at := JmpIf(op == Or, |cr| + 1)] == out + cl + ShortCircuit(op, |cr|) + cr;
    }
  }

  lemma UnaryParsed(s: ParserState, s': ParserState, op: UnaryOperator, plain: bool, code: seq<Item>, level: int)
    requires Context(s.operators, UNARY_LEVEL) && UNARY_LEVEL <= level
    requires Parsed(PushToken(s, Token.Unary(op)), s', plain, code, level)
    ensures Parsed(s, s', false, code + [Item.Unary(op)], UNARY_LEVEL)
  {
    var s1 := PushToken(s, Token.Unary(op));
    AddItemsSkips(s.operators, Pending(Token.Unary(op), None), UNARY_LEVEL);
    var d1 := Done(s1, plain, code, s'.lastIsVarOrFnc);
    var d := Done(s, false, code + [Item.Unary(op)], s'.lastIsVarOrFnc);
    var base, p := d.(output := d1.output), Pending(Token.Unary(op), None);
    assert d1 == base.(operators := base.operators + [p]);
    assert base.(output := Emit(base.output, p)) == d;
    forall m | m <= UNARY_LEVEL ensures Drain(s', m) == Drain(d, m) {
      DrainPush(base, p, m);
    }
  }

  // Reading a binary operator after its left operand.
  lemma LeftParsed(s: ParserState, sl: ParserState, op: BinaryOperator, plain: bool, cl: seq<Item>, level: int)
    requires Context(s.operators, Precedence(op)) && Precedence(op) <= level && Room(s.argCount, 1)
    requires Parsed(s, sl, plain, cl, level)
    ensures Step(sl, Token.Binary(op))
         == Ok(PushBinary(Done(s, plain, cl, false).(argCount := s.argCount), op))
  {
    var p := Precedence(op);
    var d := Done(s, plain, cl, sl.lastIsVarOrFnc);
    assert Drain(DecArgCount(sl), p) == d.(argCount := s.argCount) by {
      IncDec(s.argCount);
      assert DecArgCount(sl) == sl.(argCount := s.argCount);
      DrainFrame(sl, s.argCount, p);
      ContextStops(s, plain, cl, sl.lastIsVarOrFnc, p);
      assert Drain(sl, p) == d;
    }
  }

  lemma ContextStops(s: ParserState, plain: bool, code: seq<Item>, last: bool, p: int)
    requires Context(s.operators, p) && p < UNARY_LEVEL
    ensures Drain(Done(s, plain, code, last), p) == Done(s, plain, code, last)
  {
    AddItemsTop(s.operators, 1, p);
  }

  lemma RightParsed(s: ParserState, sr: ParserState, op: BinaryOperator, plain: bool, cl: seq<Item>,
                    rplain: bool, cr: seq<Item>, level: int)
    requires Context(s.operators, Precedence(op)) && Precedence(op) < level && |cr| + 1 < U32_RANGE
    requires Parsed(PushBinary(Done(s, plain, cl, false).(argCount := s.argCount), op), sr, rplain, cr, level)
    ensures Parsed(s, sr, plain, CompileBinary(op, cl, cr), Precedence(op))
  {
    var p := Precedence(op);
    var c := Done(s, plain, cl, false).(argCount := s.argCount);
    var s2 := PushBinary(c, op);
    var pending := Pending(Token.Binary(op), if IsShortCircuit(op) then Some(|s.output + cl|) else None);
    var d2 := Done(s2, rplain, cr, sr.lastIsVarOrFnc);
    var d := Done(s, plain, CompileBinary(op, cl, cr), sr.lastIsVarOrFnc);
    var base := d.(output := s.output + cl + JumpFor(op) + cr);
    assert d2 == base.(operators := base.operators + [pending]) by {
      AddItemsTop(s.operators, 1, p);
      AddItemsSkips(c.operators, pending, p);
    }
    EmitBinary(s.output, op, cl, cr);
    forall m | m <= p ensures Drain(sr, m) == Drain(d, m) {
      DrainPush(base, pending, m);
    }
  }

  // A delimiter on top of the stack stops draining.
  lemma DelimitedParsed(s: ParserState, s': ParserState, plain: bool, code: seq<Item>, level: int)
    requires s.operators != []
    requires s.operators[|s.operators| - 1].token.OpenParen? || s.operators[|s.operators| - 1].token.OpenBracket?
    requires Parsed(s, s', plain, code, level) && 1 <= level
    ensures Drain(s', 0) == Done(s, plain, code, s'.lastIsVarOrFnc)
  {
    AddItemsTop(s.operators, 1, level);
    var d := Done(s, plain, code, s'.lastIsVarOrFnc);
    assert Drain(s', 0) == Drain(d, 0) == d;
  }

  lemma ParensParsed(s: ParserState, s': ParserState, plain: bool, code: seq<Item>, level: int)
    requires Context(s.operators, INDEXED_LEVEL) && 1 <= level
    requires Parsed(PushToken(s, OpenParen), s', plain, code, level)
    ensures Step(s', CloseParen) == Ok(Done(s, false, code, true))
  {
    var s1 := PushToken(s, OpenParen);
    DelimitedParsed(s1, s', plain, code, level);
    AddItemsSkips(s.operators, Pending(OpenParen, None), INDEXED_LEVEL);
    var d := Done(s1, plain, code, s'.lastIsVarOrFnc);
    assert Step(s', CloseParen) == SetLast(CloseDrained(d, OpenParen), true);
    CloseParens(s.operators, d);
    assert s.output + code == d.output;
  }

  lemma CloseParens(ops: seq<Pending>, d: ParserState)
    requires Context(ops, INDEXED_LEVEL) && d.operators == ops + [Pending(OpenParen, None)]
    ensures CloseDrained(d, OpenParen) == Ok(d.(operators := ops))
  {
    assert d.operators[..|ops|] == ops;
  }

  /** After a comma-separated list inside a delimiter: its code is at the end of the output, each
      item is counted, and each plain item is counted by an enclosing array literal. */
  function ListDone(s: ParserState, n: nat, plain: nat, code: seq<Item>): ParserState {
    ParserState(s.output + code,
                if s.argCount == [] then s.operators else AddItems(s.operators, plain),
                AddLast(s.argCount, n),
                false)
  }

  function AddLast(args: seq<int>, n: nat): seq<int> {
    if args == [] then [] else args[|args| - 1 := args[|args| - 1] + n]
  }

  predicate Delimited(s: ParserState) {
    && !s.lastIsVarOrFnc
    && s.operators != []
    && (s.operators[|s.operators| - 1].token.OpenParen? || s.operators[|s.operators| - 1].token.OpenBracket?)
  }

  function PlainCount(es: seq<Expr>): (n: nat)
    ensures n <= |es|
  {
    if es == [] then 0 else (if Plain(es[0]) then 1 else 0) + PlainCount(es[1..])
  }

  lemma {:induction false} AllPlain(es: seq<Expr>)
    ensures PlainCount(es) == |es| <==> forall i | 0 <= i < |es| :: Plain(es[i])
    decreases |es|
  {
    if es != [] {
      AllPlain(es[1..]);
      assert forall i | 1 <= i < |es| :: es[i] == es[1..][i - 1];
    }
  }

  lemma AddItemsSum(ops: seq<Pending>, j: nat, k: nat)
    ensures AddItems(AddItems(ops, j), k) == AddItems(ops, j + k)
    ensures AddItems(ops, 0) == ops
  {
    var pos := CountedSlot(ops);
    if pos < |ops| && IsArrayBuild(ops[pos].token) {
      ModSum(ops[pos].token.numArgs, j, k);
    }
  }

  lemma ModSum(n: nat, j: nat, k: nat)
    ensures Wrap32(Wrap32(n + j) + k) == Wrap32(n + (j + k))
  {
    var a := n + j;
    assert (a % 0x1_0000_0000 + k) % 0x1_0000_0000 == (a + k) % 0x1_0000_0000;
  }

  lemma ListCons(s: ParserState, plain: bool, n: nat, k: nat, c0: seq<Item>, cs: seq<Item>, last: bool)
    requires Room(s.argCount, 1)
    ensures ListDone(Done(s, plain, c0, last), n, k, cs) == ListDone(s, n + 1, k + (if plain then 1 else 0), c0 + cs)
  {
    AddItemsSum(s.operators, 1, k);
    assert s.output + c0 + cs == s.output + (c0 + cs);
  }

  lemma ListNil(s: ParserState)
    ensures ListDone(s, 0, 0, []) == s.(lastIsVarOrFnc := false)
  {
    AddItemsSum(s.operators, 0, 0);
    assert s.output + [] == s.output;
  }

  /** The parser run over the printed form of a tree, and its rejection exactly when the tree is
      not accepted. */
  lemma {:induction false} ParseExpr(s: ParserState, e: Expr) returns (s': ParserState)
    requires !s.lastIsVarOrFnc && Context(s.operators, Level(e))
    requires Room(s.argCount, |Print(e)|) && |Print(e)| < I32_RANGE
    ensures Accepted(e) ==> Run(s, Print(e)) == Ok(s') && Parsed(s, s', Plain(e), Compile(e), Level(e))
    ensures !Accepted(e) ==> Run(s, Print(e)).Err?
    decreases e, 1
  {
    match e
    case Var(_) | Const(_) | Group(_) =>
      RunOne(s, Print(e)[0]);
      s' := Step(s, Print(e)[0]).value;
    case Un(op, x) => s' := ParseUnary(s, op, x);
    case Bin(op, l, r) => s' := ParseBinary(s, op, l, r, PrintAt(l, Precedence(op)), PrintAt(r, Precedence(op) + 1));
    case Call(name, id, n, args) => s' := ParseCall(s, Token.Function(name, id, n), args);
    case Match(regex, x) => s' := ParseMatch(s, regex, x);
    case Array(items) =>
      AllPlain(items);
      s' := ParseArray(s, items);
    case Index(b, i) => s' := ParseIndex(s, b, i, PrintAt(b, INDEXED_LEVEL));
  }

  lemma RunOne(s: ParserState, t: Token)
    ensures Run(s, [t]) == Step(s, t)
  {
    if Step(s, t).Ok? {
      assert Run(Step(s, t).value, [t][1..]) == Step(s, t);
    }
  }

  lemma RunCons(s: ParserState, t: Token, ts: seq<Token>)
    ensures Run(s, [t] + ts) == if Step(s, t).Err? then Step(s, t) else Run(Step(s, t).value, ts)
  {
    assert ([t] + ts)[1..] == ts;
  }

  lemma RunSnoc(s: ParserState, ts: seq<Token>, t: Token)
    ensures Run(s, ts + [t]) == if Run(s, ts).Err? then Run(s, ts) else Step(Run(s, ts).value, t)
  {
    RunConcat(s, ts, [t]);
    if Run(s, ts).Ok? {
      RunOne(Run(s, ts).value, t);
    }
  }

  function EffectiveLevel(e: Expr, level: int): int {
    if level <= Level(e) then Level(e) else INDEXED_LEVEL
  }

  lemma {:induction false} ParseAt(s: ParserState, e: Expr, level: int) returns (s': ParserState)
    requires !s.lastIsVarOrFnc && Context(s.operators, EffectiveLevel(e, level))
    requires Room(s.argCount, |PrintAt(e, level)|) && |PrintAt(e, level)| < I32_RANGE
    ensures Accepted(e) ==>
              && Run(s, PrintAt(e, level)) == Ok(s')
              && Parsed(s, s', PlainAt(e, level), Compile(e), EffectiveLevel(e, level))
    ensures !Accepted(e) ==> Run(s, PrintAt(e, level)).Err?
    decreases e, 2
  {
    if level <= Level(e) {
      s' := ParseExpr(s, e);
    } else {
      var s1 := PushToken(s, OpenParen);
      s' := ParseExpr(s1, e);
      RunCons(s, OpenParen, Print(e));
      RunSnoc(s, [OpenParen] + Print(e), CloseParen);
      if Accepted(e) {
        ParensParsed(s, s', Plain(e), Compile(e), Level(e));
        s' := Done(s, false, Compile(e), true);
      }
    }
  }

  lemma {:induction false} ParseUnary(s: ParserState, op: UnaryOperator, x: Expr) returns (s': ParserState)
    requires !s.lastIsVarOrFnc && Context(s.operators, UNARY_LEVEL)
    requires Room(s.argCount, 1 + |PrintAt(x, UNARY_LEVEL)|) && 1 + |PrintAt(x, UNARY_LEVEL)| < I32_RANGE
    ensures Accepted(x) ==>
              && Run(s, [Token.Unary(op)] + PrintAt(x, UNARY_LEVEL)) == Ok(s')
              && Parsed(s, s', false, Compile(x) + [Item.Unary(op)], UNARY_LEVEL)
    ensures !Accepted(x) ==> Run(s, [Token.Unary(op)] + PrintAt(x, UNARY_LEVEL)).Err?
    decreases x, 3
  {
    var s1 := PushToken(s, Token.Unary(op));
    s' := ParseAt(s1, x, UNARY_LEVEL);
    RunCons(s, Token.Unary(op), PrintAt(x, UNARY_LEVEL));
    if Accepted(x) {
      UnaryParsed(s, s', op, PlainAt(x, UNARY_LEVEL), Compile(x), EffectiveLevel(x, UNARY_LEVEL));
    }
  }

  // The state in which the right operand of a binary operator is read.
  function AfterOperator(s: ParserState, op: BinaryOperator, l: Expr): ParserState {
    PushBinary(Done(s, PlainAt(l, Precedence(op)), Compile(l), false).(argCount := s.argCount), op)
  }

  lemma {:induction false} ParseLeft(s: ParserState, op: BinaryOperator, l: Expr, tl: seq<Token>)
    requires !s.lastIsVarOrFnc && Context(s.operators, Precedence(op)) && tl == PrintAt(l, Precedence(op))
    requires Room(s.argCount, |tl|) && |tl| < I32_RANGE
    ensures Accepted(l) ==> Run(s, tl + [Token.Binary(op)]) == Ok(AfterOperator(s, op, l))
    ensures !Accepted(l) ==> Run(s, tl + [Token.Binary(op)]).Err?
    decreases l, 3
  {
    var p := Precedence(op);
    var s' := ParseAt(s, l, p);
    RunSnoc(s, tl, Token.Binary(op));
    if Accepted(l) {
      LeftParsed(s, s', op, PlainAt(l, p), Compile(l), EffectiveLevel(l, p));
    }
  }

  lemma AfterOperatorContext(s: ParserState, op: BinaryOperator, l: Expr)
    ensures !AfterOperator(s, op, l).lastIsVarOrFnc
    ensures AfterOperator(s, op, l).argCount == s.argCount
    ensures forall level | Precedence(op) < level :: Context(AfterOperator(s, op, l).operators, level)
  {
  }

  lemma {:induction false} ParseRight(s: ParserState, op: BinaryOperator, l: Expr, r: Expr, tr: seq<Token>) returns (s': ParserState)
    requires Context(s.operators, Precedence(op)) && tr == PrintAt(r, Precedence(op) + 1)
    requires Room(s.argCount, |tr|) && |tr| < I32_RANGE
    ensures Accepted(r) ==>
              && Run(AfterOperator(s, op, l), tr) == Ok(s')
              && Parsed(s, s', PlainAt(l, Precedence(op)), CompileBinary(op, Compile(l), Compile(r)), Precedence(op))
    ensures !Accepted(r) ==> Run(AfterOperator(s, op, l), tr).Err?
    decreases r, 3
  {
    var p := Precedence(op);
    AfterOperatorContext(s, op, l);
    s' := ParseAt(AfterOperator(s, op, l), r, p + 1);
    if Accepted(r) {
      CompileLength(r);
      RightParsed(s, s', op, PlainAt(l, p), Compile(l), PlainAt(r, p + 1), Compile(r), EffectiveLevel(r, p + 1));
    }
  }

  lemma {:induction false} ParseBinary(s: ParserState, op: BinaryOperator, l: Expr, r: Expr, tl: seq<Token>, tr: seq<Token>)
    returns (s': ParserState)
    requires !s.lastIsVarOrFnc && Context(s.operators, Precedence(op))
    requires tl == PrintAt(l, Precedence(op)) && tr == PrintAt(r, Precedence(op) + 1)
    requires Room(s.argCount, |tl| + 1 + |tr|) && |tl| + 1 + |tr| < I32_RANGE
    ensures Accepted(l) && Accepted(r) ==>
              && Run(s, tl + [Token.Binary(op)] + tr) == Ok(s')
              && Parsed(s, s', PlainAt(l, Precedence(op)), CompileBinary(op, Compile(l), Compile(r)), Precedence(op))
    ensures !(Accepted(l) && Accepted(r)) ==> Run(s, tl + [Token.Binary(op)] + tr).Err?
    decreases Bin(op, l, r), 0
  {
    s' := ParseRight(s, op, l, r, tr);
    ParseLeftThen(s, op, l, tl, tr, Accepted(r), s');
  }

  // The left operand and its operator, and then tokens of which the outcome is known.
  lemma {:induction false} ParseLeftThen(s: ParserState, op: BinaryOperator, l: Expr, tl: seq<Token>, tr: seq<Token>, ok: bool, s': ParserState)
    requires !s.lastIsVarOrFnc && Context(s.operators, Precedence(op)) && tl == PrintAt(l, Precedence(op))
    requires Room(s.argCount, |tl|) && |tl| < I32_RANGE
    requires if ok then Run(AfterOperator(s, op, l), tr) == Ok(s') else Run(AfterOperator(s, op, l), tr).Err?
    ensures if Accepted(l) && ok then Run(s, tl + [Token.Binary(op)] + tr) == Ok(s') else Run(s, tl + [Token.Binary(op)] + tr).Err?
    decreases l, 4
  {
    ParseLeft(s, op, l, tl);
    RunConcat(s, tl + [Token.Binary(op)], tr);
  }

  lemma {:induction false} ParseItem(s: ParserState, e: Expr) returns (u: ParserState)
    requires Delimited(s) && Room(s.argCount, |Print(e)|) && |Print(e)| < I32_RANGE
    ensures Accepted(e) ==> Run(s, Print(e)) == Ok(u) && Drain(u, 0) == Done(s, Plain(e), Compile(e), u.lastIsVarOrFnc)
    ensures !Accepted(e) ==> Run(s, Print(e)).Err?
    decreases e, 4
  {
    u := ParseExpr(s, e);
    if Accepted(e) {
      DelimitedParsed(s, u, Plain(e), Compile(e), Level(e));
    }
  }

  lemma {:induction false} ParseItemComma(s: ParserState, e: Expr)
    requires Delimited(s) && Room(s.argCount, |Print(e)|) && |Print(e)| < I32_RANGE
    ensures Accepted(e) ==> Run(s, Print(e) + [Comma]) == Ok(Done(s, Plain(e), Compile(e), false))
    ensures !Accepted(e) ==> Run(s, Print(e) + [Comma]).Err?
    decreases e, 5
  {
    var u := ParseItem(s, e);
    RunSnoc(s, Print(e), Comma);
  }

  lemma DoneDelimited(s: ParserState, plain: bool, code: seq<Item>, n: nat)
    requires Delimited(s) && Room(s.argCount, n + 1)
    ensures Delimited(Done(s, plain, code, false)) && Room(Done(s, plain, code, false).argCount, n)
  {
    AddItemsTop(s.operators, 1, 1);
  }

  // What a comma or a closing delimiter finds.
  function Landing(r: Result<ParserState, ParseError>): Option<ParserState> {
    match r
    case Ok(u) => Some(Drain(u, 0).(lastIsVarOrFnc := false))
    case Err(_) => None
  }

  // The run over the tokens of a list of n items ends in the completed state, or not at all.
  predicate ListParsed(s: ParserState, accepted: bool, tokens: seq<Token>, n: nat, plain: nat, code: seq<Item>) {
    Landing(Run(s, tokens)) == if accepted then Some(ListDone(s, n, plain, code)) else None
  }

  lemma ListSyntax(e: Expr, es: seq<Expr>)
    ensures PrintList([e] + es) == Print(e) + (if es == [] then [] else [Comma] + PrintList(es))
    ensures CompileList([e] + es) == Compile(e) + CompileList(es)
    ensures PlainCount([e] + es) == (if Plain(e) then 1 else 0) + PlainCount(es)
    ensures AllAccepted([e] + es) == (Accepted(e) && AllAccepted(es))
  {
    assert ([e] + es)[1..] == es;
  }

  lemma SingleDone(s: ParserState, plain: bool, code: seq<Item>, last: bool)
    requires Room(s.argCount, 1)
    ensures Done(s, plain, code, last).(lastIsVarOrFnc := false) == ListDone(s, 1, if plain then 1 else 0, code)
  {
    ListCons(s, plain, 0, 0, code, [], last);
    ListNil(Done(s, plain, code, last));
    assert code + [] == code;
  }

  lemma ConsParsed(s: ParserState, a0: bool, t0: seq<Token>, plain: bool, c0: seq<Item>,
                   a: bool, ts: seq<Token>, n: nat, k: nat, cs: seq<Item>)
    requires Room(s.argCount, 1)
    requires if a0 then Run(s, t0 + [Comma]) == Ok(Done(s, plain, c0, false)) else Run(s, t0 + [Comma]).Err?
    requires a0 ==> ListParsed(Done(s, plain, c0, false), a, ts, n, k, cs)
    ensures ListParsed(s, a0 && a, t0 + ([Comma] + ts), n + 1, (if plain then 1 else 0) + k, c0 + cs)
  {
    assert t0 + ([Comma] + ts) == t0 + [Comma] + ts;
    LandingAfter(s, t0 + [Comma], ts, Done(s, plain, c0, false));
    ListCons(s, plain, n, k, c0, cs, false);
  }

  lemma LandingAfter(s: ParserState, a: seq<Token>, b: seq<Token>, mid: ParserState)
    ensures Run(s, a) == Ok(mid) ==> Landing(Run(s, a + b)) == Landing(Run(mid, b))
    ensures Run(s, a).Err? ==> Landing(Run(s, a + b)) == None
  {
    RunConcat(s, a, b);
  }

  lemma {:induction false} ParseList(s: ParserState, es: seq<Expr>)
    requires Delimited(s)
    requires Room(s.argCount, |PrintList(es)|) && |PrintList(es)| < I32_RANGE
    ensures ListParsed(s, AllAccepted(es), PrintList(es), |es|, PlainCount(es), CompileList(es))
    decreases es, 2
  {
    if es == [] {
      EmptyParsed(s);
    } else {
      assert es == [es[0]] + es[1..];
      ParseListCons(s, es[0], es[1..]);
    }
  }

  lemma EmptyParsed(s: ParserState)
    requires Delimited(s)
    ensures ListParsed(s, true, [], 0, 0, [])
  {
    ListNil(s);
  }

  lemma {:induction false} ParseListCons(s: ParserState, e: Expr, es: seq<Expr>)
    requires Delimited(s)
    requires Room(s.argCount, |PrintList([e] + es)|) && |PrintList([e] + es)| < I32_RANGE
    ensures ListParsed(s, AllAccepted([e] + es), PrintList([e] + es), 1 + |es|, PlainCount([e] + es), CompileList([e] + es))
    decreases [e] + es, 1
  {
    ListSyntax(e, es);
    if es == [] {
      ParseSingle(s, e);
      assert Print(e) + [] == Print(e) && Compile(e) + [] == Compile(e);
    } else {
      ParseListMany(s, [e] + es, e, es);
    }
  }

  lemma {:induction false} ParseListMany(s: ParserState, all: seq<Expr>, e: Expr, es: seq<Expr>)
    requires Delimited(s) && |all| > 0 && e == all[0] && es == all[1..]
    requires Room(s.argCount, |Print(e)| + 1 + |PrintList(es)|) && |Print(e)| + 1 + |PrintList(es)| < I32_RANGE
    ensures ListParsed(s, Accepted(e) && AllAccepted(es), Print(e) + ([Comma] + PrintList(es)), |es| + 1,
                       (if Plain(e) then 1 else 0) + PlainCount(es), Compile(e) + CompileList(es))
    decreases all, 0
  {
    ParseListAfter(s, Plain(e), Compile(e), es);
    ItemThenList(s, e, es);
  }

  lemma {:induction false} ItemThenList(s: ParserState, e: Expr, es: seq<Expr>)
    requires Delimited(s) && Room(s.argCount, |Print(e)|) && |Print(e)| < I32_RANGE
    requires ListParsed(Done(s, Plain(e), Compile(e), false), AllAccepted(es), PrintList(es), |es|, PlainCount(es), CompileList(es))
    ensures ListParsed(s, Accepted(e) && AllAccepted(es), Print(e) + ([Comma] + PrintList(es)), |es| + 1,
                       (if Plain(e) then 1 else 0) + PlainCount(es), Compile(e) + CompileList(es))
    decreases e, 7
  {
    ItemThen(s, e, AllAccepted(es), PrintList(es), |es|, PlainCount(es), CompileList(es));
  }

  lemma {:induction false} ParseListAfter(s: ParserState, plain: bool, code: seq<Item>, es: seq<Expr>)
    requires Delimited(s) && Room(s.argCount, 1 + |PrintList(es)|) && |PrintList(es)| < I32_RANGE
    ensures ListParsed(Done(s, plain, code, false), AllAccepted(es), PrintList(es), |es|, PlainCount(es), CompileList(es))
    decreases es, 3
  {
    DoneDelimited(s, plain, code, |PrintList(es)|);
    ParseList(Done(s, plain, code, false), es);
  }

  // An item before a list of which the outcome is known.
  lemma {:induction false} ItemThen(s: ParserState, e: Expr, ok: bool, ts: seq<Token>, n: nat, k: nat, cs: seq<Item>)
    requires Delimited(s) && Room(s.argCount, |Print(e)|) && |Print(e)| < I32_RANGE
    requires ListParsed(Done(s, Plain(e), Compile(e), false), ok, ts, n, k, cs)
    ensures ListParsed(s, Accepted(e) && ok, Print(e) + ([Comma] + ts), n + 1, (if Plain(e) then 1 else 0) + k, Compile(e) + cs)
    decreases e, 6
  {
    ParseItemComma(s, e);
    ConsParsed(s, Accepted(e), Print(e), Plain(e), Compile(e), ok, ts, n, k, cs);
  }

  // A call token with its delimiter open, on top of the state c.
  function Opened(c: ParserState, f: Token, args: int, open: Token): ParserState {
    PushToken(OpenCall(c, f, args), open).(lastIsVarOrFnc := false)
  }

  // The number of arguments a call accepts after k items were counted for it.
  function Expected(f: Token, k: nat): int
    requires IsCall(f)
  {
    if f.Regex? then 1
    else if IsArrayBuild(f) then AsI32(Wrap32(f.numArgs + k))
    else AsI32(f.numArgs)
  }

  function Completed(f: Token, k: nat): Item
    requires IsCall(f)
  {
    if f.Regex? then Item.Regex(f.regex)
    else if IsArrayBuild(f) then ArrayBuild(Wrap32(f.numArgs + k))
    else CallItem(f.id, f.numArgs)
  }

  // Why a call is refused that was given another number of arguments.
  function Refusal(f: Token, k: nat, got: int): ParseError
    requires IsCall(f)
  {
    if f.Regex? then MatchesArity
    else if f.id == ARRAY_ACCESS then MissingArrayIndex
    else WrongArgumentCount(f.name, Recounted(f, k).numArgs, got)
  }

  predicate Delimiters(open: Token, close: Token) {
    (open == OpenParen && close == CloseParen) || (open == OpenBracket && close == CloseBracket)
  }

  lemma OpenedFacts(c: ParserState, f: Token, args: int, open: Token, n: nat)
    requires open.OpenParen? || open.OpenBracket?
    requires 0 <= args && args + n < I32_RANGE
    ensures Delimited(Opened(c, f, args, open)) && Room(Opened(c, f, args, open).argCount, n)
  {
  }

  function Recounted(f: Token, k: nat): Token {
    if IsArrayBuild(f) then f.(numArgs := Wrap32(f.numArgs + k)) else f
  }

  lemma ListDoneOpened(c: ParserState, f: Token, args: int, open: Token, n: nat, k: nat, code: seq<Item>)
    requires IsCall(f)
    ensures ListDone(Opened(c, f, args, open), n, k, code)
         == ParserState(c.output + code, c.operators + [Pending(Recounted(f, k), None)] + [Pending(open, None)],
                        c.argCount + [args + n], false)
  {
  }

  // Closing a call accepts exactly the expected number of arguments.
  lemma CloseTop(c: ParserState, f: Token, k: nat, got: int, out: seq<Item>, open: Token, last: bool)
    requires IsCall(f)
    ensures var d := ParserState(out, c.operators + [Pending(Recounted(f, k), None)] + [Pending(open, None)],
                                 c.argCount + [got], last);
            && (got == Expected(f, k) ==>
                  SetLast(CloseDrained(d, open), true) == Ok(c.(output := out + [Completed(f, k)], lastIsVarOrFnc := true)))
            && (got != Expected(f, k) ==> CloseDrained(d, open) == Err(Refusal(f, k, got)))
  {
    var ops := c.operators + [Pending(Recounted(f, k), None)];
    assert (ops + [Pending(open, None)])[..|ops|] == ops;
    assert ops[..|c.operators|] == c.operators;
    assert (c.argCount + [got])[..|c.argCount|] == c.argCount;
  }

  lemma StepCloses(u: ParserState, open: Token, close: Token)
    requires Delimiters(open, close)
    ensures Step(u, close) == SetLast(CloseDrained(Drain(u, 0), open), true)
  {
  }

  // The same where the drained state is known but for the flag.
  lemma CloseLanded(u: ParserState, c: ParserState, f: Token, k: nat, got: int, out: seq<Item>, open: Token, close: Token)
    requires IsCall(f) && Delimiters(open, close)
    requires Landing(Ok(u)) == Some(ParserState(out, c.operators + [Pending(Recounted(f, k), None)] + [Pending(open, None)],
                                                c.argCount + [got], false))
    ensures got == Expected(f, k) ==> Step(u, close) == Ok(c.(output := out + [Completed(f, k)], lastIsVarOrFnc := true))
    ensures got != Expected(f, k) ==> Step(u, close) == Err(Refusal(f, k, got))
  {
    StepCloses(u, open, close);
    CloseTop(c, f, k, got, out, open, Drain(u, 0).lastIsVarOrFnc);
  }

  lemma GroupParsed(c: ParserState, f: Token, args: int, open: Token, close: Token,
                    accepted: bool, tokens: seq<Token>, n: nat, k: nat, code: seq<Item>)
    requires IsCall(f) && Delimiters(open, close)
    requires ListParsed(Opened(c, f, args, open), accepted, tokens, n, k, code)
    ensures accepted && args + n == Expected(f, k) ==>
              Run(Opened(c, f, args, open), tokens + [close])
              == Ok(c.(output := c.output + (code + [Completed(f, k)]), lastIsVarOrFnc := true))
    ensures accepted && args + n != Expected(f, k) ==>
              Run(Opened(c, f, args, open), tokens + [close]) == Err(Refusal(f, k, args + n))
    ensures !accepted ==> Run(Opened(c, f, args, open), tokens + [close]).Err?
  {
    var s := Opened(c, f, args, open);
    RunSnoc(s, tokens, close);
    if accepted {
      ListDoneOpened(c, f, args, open, n, k, code);
      CloseLanded(Run(s, tokens).value, c, f, k, args + n, c.output + code, open, close);
      assert c.output + code + [Completed(f, k)] == c.output + (code + [Completed(f, k)]);
    }
  }

  // The two tokens that open a named call.
  lemma OpenNamed(s: ParserState, f: Token, tokens: seq<Token>)
    requires IsCall(f)
    ensures Run(s, [f, OpenParen] + tokens) == Run(Opened(IncArgCount(s), f, 0, OpenParen), tokens)
  {
    var s1 := Step(s, f).value;
    assert [f, OpenParen] + tokens == [f] + ([OpenParen] + tokens);
    RunCons(s, f, [OpenParen] + tokens);
    RunCons(s1, OpenParen, tokens);
  }

  lemma DoneParsed(s: ParserState, plain: bool, code: seq<Item>)
    ensures Parsed(s, Done(s, plain, code, true), plain, code, INDEXED_LEVEL)
  {
  }

  lemma {:induction false} ParseCall(s: ParserState, f: Token, args: seq<Expr>) returns (s': ParserState)
    requires f.Function? && f.id < ARRAY_BUILD && !s.lastIsVarOrFnc
    requires |PrintList(args)| < I32_RANGE
    ensures var ts := [f, OpenParen] + PrintList(args) + [CloseParen];
            && (AllAccepted(args) && |args| == AsI32(f.numArgs) ==>
                  Run(s, ts) == Ok(s') && Parsed(s, s', true, CompileList(args) + [Item.Function(f.id, f.numArgs)], INDEXED_LEVEL))
            && (!(AllAccepted(args) && |args| == AsI32(f.numArgs)) ==> Run(s, ts).Err?)
    decreases args, 3
  {
    var c := IncArgCount(s);
    var ts, code, k := PrintList(args), CompileList(args), PlainCount(args);
    OpenedFacts(c, f, 0, OpenParen, |ts|);
    ParseList(Opened(c, f, 0, OpenParen), args);
    GroupParsed(c, f, 0, OpenParen, CloseParen, AllAccepted(args), ts, |args|, k, code);
    OpenNamed(s, f, ts + [CloseParen]);
    assert [f, OpenParen] + (ts + [CloseParen]) == [f, OpenParen] + ts + [CloseParen];
    s' := Done(s, true, code + [Item.Function(f.id, f.numArgs)], true);
    DoneParsed(s, true, code + [Item.Function(f.id, f.numArgs)]);
  }

  lemma {:induction false} ParseSingle(s: ParserState, e: Expr)
    requires Delimited(s) && Room(s.argCount, |Print(e)|) && |Print(e)| < I32_RANGE
    ensures ListParsed(s, Accepted(e), Print(e), 1, if Plain(e) then 1 else 0, Compile(e))
    decreases e, 5
  {
    var u := ParseItem(s, e);
    SingleDone(s, Plain(e), Compile(e), u.lastIsVarOrFnc);
  }

  lemma {:induction false} ParseMatch(s: ParserState, regex: Regex, x: Expr) returns (s': ParserState)
    requires !s.lastIsVarOrFnc && |Print(x)| + 1 < I32_RANGE
    ensures var ts := [Token.Regex(regex), OpenParen] + Print(x) + [CloseParen];
            && (Accepted(x) ==> Run(s, ts) == Ok(s') && Parsed(s, s', true, Compile(x) + [Item.Regex(regex)], INDEXED_LEVEL))
            && (!Accepted(x) ==> Run(s, ts).Err?)
    decreases x, 6
  {
    var c, f := IncArgCount(s), Token.Regex(regex);
    var ts, code, k := Print(x), Compile(x), if Plain(x) then 1 else 0;
    OpenedFacts(c, f, 0, OpenParen, |ts|);
    ParseSingle(Opened(c, f, 0, OpenParen), x);
    GroupParsed(c, f, 0, OpenParen, CloseParen, Accepted(x), ts, 1, k, code);
    OpenNamed(s, f, ts + [CloseParen]);
    assert [f, OpenParen] + (ts + [CloseParen]) == [f, OpenParen] + ts + [CloseParen];
    s' := Done(s, true, code + [Item.Regex(regex)], true);
    DoneParsed(s, true, code + [Item.Regex(regex)]);
  }

  lemma OpenLiteral(s: ParserState, k: nat)
    requires !s.lastIsVarOrFnc && k < I32_RANGE
    ensures Step(s, OpenBracket) == Ok(Opened(IncArgCount(s), BracketCall(false), 0, OpenBracket))
    ensures Expected(BracketCall(false), k) == k
    ensures Completed(BracketCall(false), k) == ArrayBuild(k)
  {
  }

  lemma {:induction false} ParseArray(s: ParserState, items: seq<Expr>) returns (s': ParserState)
    requires !s.lastIsVarOrFnc && |PrintList(items)| < I32_RANGE
    ensures var ts := [OpenBracket] + PrintList(items) + [CloseBracket];
            var ok := AllAccepted(items) && PlainCount(items) == |items|;
            && (ok ==> Run(s, ts) == Ok(s') && Parsed(s, s', true, CompileList(items) + [ArrayBuild(Wrap32(|items|))], INDEXED_LEVEL))
            && (!ok ==> Run(s, ts).Err?)
    decreases items, 3
  {
    var c, f := IncArgCount(s), BracketCall(false);
    var ts, code, k := PrintList(items), CompileList(items), PlainCount(items);
    OpenedFacts(c, f, 0, OpenBracket, |ts|);
    ParseList(Opened(c, f, 0, OpenBracket), items);
    GroupParsed(c, f, 0, OpenBracket, CloseBracket, AllAccepted(items), ts, |items|, k, code);
    RunCons(s, OpenBracket, ts + [CloseBracket]);
    assert [OpenBracket] + (ts + [CloseBracket]) == [OpenBracket] + ts + [CloseBracket];
    OpenLiteral(s, k);
    s' := Done(s, true, code + [ArrayBuild(Wrap32(|items|))], true);
    DoneParsed(s, true, code + [ArrayBuild(Wrap32(|items|))]);
  }

  lemma {:induction false} ParseIndex(s: ParserState, b: Expr, i: Expr, tb: seq<Token>) returns (s': ParserState)
    requires !s.lastIsVarOrFnc && Context(s.operators, INDEXED_LEVEL) && tb == PrintAt(b, INDEXED_LEVEL)
    requires Room(s.argCount, |tb|) && |tb| < I32_RANGE && |Print(i)| + 2 < I32_RANGE
    ensures var ts := tb + [OpenBracket] + Print(i) + [CloseBracket];
            && (Accepted(b) && Accepted(i) ==>
                  && Run(s, ts) == Ok(s')
                  && Parsed(s, s', PlainAt(b, INDEXED_LEVEL), Compile(b) + Compile(i) + [ArrayAccess], INDEXED_LEVEL))
            && (!(Accepted(b) && Accepted(i)) ==> Run(s, ts).Err?)
    decreases Index(b, i), 0
  {
    var ti := Print(i);
    s' := ParseAt(s, b, INDEXED_LEVEL);
    assert tb + [OpenBracket] + ti + [CloseBracket] == tb + ([OpenBracket] + (ti + [CloseBracket]));
    RunConcat(s, tb, [OpenBracket] + (ti + [CloseBracket]));
    if Accepted(b) {
      IndexFrom(s, PlainAt(b, INDEXED_LEVEL), Compile(b), i);
      s' := Done(s, PlainAt(b, INDEXED_LEVEL), Compile(b) + Compile(i) + [ArrayAccess], true);
      DoneParsed(s, PlainAt(b, INDEXED_LEVEL), Compile(b) + Compile(i) + [ArrayAccess]);
    }
  }

  lemma {:induction false} IndexFrom(s: ParserState, plain: bool, cb: seq<Item>, i: Expr)
    requires |Print(i)| + 2 < I32_RANGE
    ensures var ts := [OpenBracket] + (Print(i) + [CloseBracket]);
            && (Accepted(i) ==> Run(Done(s, plain, cb, true), ts) == Ok(Done(s, plain, cb + Compile(i) + [ArrayAccess], true)))
            && (!Accepted(i) ==> Run(Done(s, plain, cb, true), ts).Err?)
    decreases i, 6
  {
    var d, f := Done(s, plain, cb, true), BracketCall(true);
    var ti, code, k := Print(i), Compile(i), if Plain(i) then 1 else 0;
    OpenedFacts(d, f, 1, OpenBracket, |ti|);
    ParseSingle(Opened(d, f, 1, OpenBracket), i);
    GroupParsed(d, f, 1, OpenBracket, CloseBracket, Accepted(i), ti, 1, k, code);
    OpenIndex(d, ti + [CloseBracket]);
    IndexDone(s, plain, cb, code);
  }

  lemma OpenIndex(d: ParserState, tokens: seq<Token>)
    requires d.lastIsVarOrFnc
    ensures Run(d, [OpenBracket] + tokens) == Run(Opened(d, BracketCall(true), 1, OpenBracket), tokens)
  {
    RunCons(d, OpenBracket, tokens);
  }

  lemma IndexDone(s: ParserState, plain: bool, cb: seq<Item>, code: seq<Item>)
    ensures var d := Done(s, plain, cb, true);
      d.(output := d.output + (code + [ArrayAccess])) == Done(s, plain, cb + code + [ArrayAccess], true)
  {
    assert s.output + cb + (code + [ArrayAccess]) == s.output + (cb + code + [ArrayAccess]);
  }

  /** Compiler correctness: the printed form of a tree compiles to its reference code exactly when
      the tree is accepted, and is rejected otherwise. */
  lemma CompilesExactly(e: Expr)
    requires |Print(e)| < I32_RANGE
    ensures Accepted(e) ==> ParseTokens(Print(e)) == Ok(Compile(e))
    ensures !Accepted(e) ==> ParseTokens(Print(e)).Err?
  {
    var s' := ParseExpr(Initial, e);
    if Accepted(e) {
      var d := Done(Initial, Plain(e), Compile(e), s'.lastIsVarOrFnc);
      assert Drain(s', 0) == Drain(d, 0) == d;
      assert [] + Compile(e) == Compile(e);
    }
  }

  /** An array literal whose item starts with a unary operator is rejected: `[!x]`. */
  lemma UnaryItemRejected(x: u32)
    ensures ParseTokens([OpenBracket, Token.Unary(Not), Token.Variable(x), CloseBracket]).Err?
  {
    var item := Un(Not, Var(x));
    var e := Array([item]);
    assert PrintAt(Var(x), UNARY_LEVEL) == [Token.Variable(x)];
    assert Print(item) == [Token.Unary(Not), Token.Variable(x)];
    assert e.items == [item] && PrintList(e.items) == Print(item);
    assert Print(e) == [OpenBracket, Token.Unary(Not), Token.Variable(x), CloseBracket];
    assert !Plain(e.items[0]);
    CompilesExactly(e);
  }
}
