/** The minus of an expression text: a negation where an expression may start, a subtraction elsewhere. */
module ExpressionText {
  import opened Wrappers
  import opened Expressions
  import opened ExpressionParser
  import opened ExpressionTrees
  import opened ExpressionCompiler

  const NEGATION := Token.Unary(Minus)

  // The tokens after which the tokenizer takes a minus for a negation.
  predicate Starts(t: Token) {
    t == OpenParen || t == Comma || t.Binary?
  }

  predicate IsMinus(t: Token) {
    t == NEGATION || t == Token.Binary(Subtract)
  }

  function HeardToken(t: Token, start: bool): Token {
    if !IsMinus(t) then t else if start then NEGATION else Token.Binary(Subtract)
  }

  /** What the tokenizer makes of the text of these tokens: each minus is decided by the token before it. */
  function Heard(ts: seq<Token>, start: bool): seq<Token> {
    if ts == [] then [] else
      var t := HeardToken(ts[0], start);
      [t] + Heard(ts[1..], Starts(t))
  }

  predicate StartsAt(ts: seq<Token>, start: bool, i: nat)
    requires i < |ts|
  {
    if i == 0 then start else Starts(ts[i - 1])
  }

  // Every negation stands where an expression may start.
  predicate Placed(ts: seq<Token>, start: bool) {
    forall i | 0 <= i < |ts| && ts[i] == NEGATION :: StartsAt(ts, start, i)
  }

  lemma PlacedRest(ts: seq<Token>, start: bool)
    requires ts != []
    ensures Placed(ts, start) <==> (ts[0] == NEGATION ==> start) && Placed(ts[1..], Starts(ts[0]))
  {
    var rest := ts[1..];
    forall i | 0 <= i < |rest| ensures rest[i] == ts[i + 1] && StartsAt(rest, Starts(ts[0]), i) == StartsAt(ts, start, i + 1) {
    }
    forall i | 0 < i < |ts| ensures ts[i] == rest[i - 1] && StartsAt(ts, start, i) == StartsAt(rest, Starts(ts[0]), i - 1) {
    }
  }

  lemma {:induction false} HeardIs(ts: seq<Token>, heard: seq<Token>, start: bool)
    requires |ts| == |heard|
    requires forall i | 0 <= i < |ts| :: heard[i] == HeardToken(ts[i], StartsAt(heard, start, i))
    ensures Heard(ts, start) == heard
    decreases |ts|
  {
    if ts != [] {
      var rest := heard[1..];
      forall i | 0 <= i < |rest| ensures StartsAt(rest, Starts(heard[0]), i) == StartsAt(heard, start, i + 1) {
      }
      HeardIs(ts[1..], rest, Starts(heard[0]));
      assert heard == [heard[0]] + rest;
    }
  }

  // Occurrences, counted from the end: stacks and outputs grow there.

  function Count<T(==)>(s: seq<T>, x: T): nat {
    if s == [] then 0 else Count(s[..|s| - 1], x) + (if s[|s| - 1] == x then 1 else 0)
  }

  lemma {:induction false} CountConcat<T>(a: seq<T>, b: seq<T>, x: T)
    ensures Count(a + b, x) == Count(a, x) + Count(b, x)
    decreases |b|
  {
    if b == [] {
      assert a + b == a;
    } else {
      assert (a + b)[..|a + b| - 1] == a + b[..|b| - 1];
      CountConcat(a, b[..|b| - 1], x);
    }
  }

  lemma CountOne<T>(t: T, x: T)
    ensures Count([t], x) == if t == x then 1 else 0
  {
    assert [t][..0] == [];
  }

  lemma {:induction false} CountUpdate<T>(s: seq<T>, i: nat, t: T, x: T)
    requires i < |s| && s[i] != x && t != x
    ensures Count(s[i := t], x) == Count(s, x)
    decreases |s|
  {
    var n := |s| - 1;
    if i == n {
      assert s[i := t][..n] == s[..n];
    } else {
      assert s[i := t][..n] == s[..n][i := t];
      CountUpdate(s[..n], i, t, x);
    }
  }

  // Printed streams never have a binary operator where an operand is due.

  predicate EndsOperand(t: Token) {
    t.Variable? || t.Constant? || t.Capture? || t == CloseParen || t == CloseBracket
  }

  predicate Shaped(ts: seq<Token>, due: bool) {
    ts == [] || ((ts[0].Binary? ==> !due) && Shaped(ts[1..], !EndsOperand(ts[0])))
  }

  function DueAfter(ts: seq<Token>, due: bool): bool {
    if ts == [] then due else !EndsOperand(ts[|ts| - 1])
  }

  lemma {:induction false} ShapedConcat(a: seq<Token>, b: seq<Token>, due: bool)
    requires Shaped(a, due) && Shaped(b, DueAfter(a, due))
    ensures Shaped(a + b, due)
    ensures DueAfter(a + b, due) == DueAfter(b, DueAfter(a, due))
    decreases |a|
  {
    if a == [] {
      assert a + b == b;
    } else {
      assert (a + b)[1..] == a[1..] + b;
      ShapedConcat(a[1..], b, !EndsOperand(a[0]));
    }
  }

  ghost predicate OperandShaped(ts: seq<Token>) {
    Shaped(ts, true) && !DueAfter(ts, true)
  }

  lemma ShapedBetween(open: seq<Token>, ts: seq<Token>, close: Token)
    requires Shaped(open, true) && DueAfter(open, true) && EndsOperand(close)
    requires Shaped(ts, true)
    ensures OperandShaped(open + ts + [close])
  {
    ShapedConcat(open, ts, true);
    ShapedConcat(open + ts, [close], true);
  }

  lemma {:induction false} PrintShaped(e: Expr)
    ensures OperandShaped(Print(e))
    decreases e, 0
  {
    match e
    case Var(_) | Const(_) | Group(_) =>
    case Un(op, x) =>
      PrintAtShaped(x, UNARY_LEVEL);
      ShapedConcat([Token.Unary(op)], PrintAt(x, UNARY_LEVEL), true);
    case Bin(op, l, r) =>
      PrintAtShaped(l, Precedence(op));
      PrintAtShaped(r, Precedence(op) + 1);
      ShapedJoined(PrintAt(l, Precedence(op)), op, PrintAt(r, Precedence(op) + 1));
    case Call(name, id, n, args) =>
      PrintListShaped(args);
      ShapedBetween([Token.Function(name, id, n), OpenParen], PrintList(args), CloseParen);
    case Match(regex, x) =>
      PrintShaped(x);
      ShapedBetween([Token.Regex(regex), OpenParen], Print(x), CloseParen);
    case Array(items) =>
      PrintListShaped(items);
      ShapedBetween([OpenBracket], PrintList(items), CloseBracket);
    case Index(b, i) =>
      PrintAtShaped(b, INDEXED_LEVEL);
      PrintShaped(i);
      ShapedConcat(PrintAt(b, INDEXED_LEVEL), [OpenBracket], true);
      ShapedBetween(PrintAt(b, INDEXED_LEVEL) + [OpenBracket], Print(i), CloseBracket);
  }

  lemma ShapedJoined(a: seq<Token>, op: BinaryOperator, b: seq<Token>)
    requires OperandShaped(a) && OperandShaped(b)
    ensures OperandShaped(a + [Token.Binary(op)] + b)
  {
    ShapedConcat(a, [Token.Binary(op)], true);
    ShapedConcat(a + [Token.Binary(op)], b, true);
  }

  lemma {:induction false} PrintAtShaped(e: Expr, level: int)
    ensures OperandShaped(PrintAt(e, level))
    decreases e, 1
  {
    PrintShaped(e);
    ShapedBetween([OpenParen], Print(e), CloseParen);
  }

  lemma {:induction false} PrintListShaped(es: seq<Expr>)
    ensures Shaped(PrintList(es), true)
    decreases es
  {
    if es != [] {
      PrintShaped(es[0]);
      if |es| > 1 {
        PrintListShaped(es[1..]);
        ShapedConcat(Print(es[0]), [Comma], true);
        ShapedConcat(Print(es[0]) + [Comma], PrintList(es[1..]), true);
      }
    }
  }

  /** A stream is heard as written exactly when its negations are placed, and otherwise loses some. */
  lemma {:induction false} HeardExactly(ts: seq<Token>, start: bool, due: bool)
    requires Shaped(ts, due) && (start ==> due)
    ensures Heard(ts, start) == ts <==> Placed(ts, start)
    ensures Heard(ts, start) == ts || Count(Heard(ts, start), NEGATION) < Count(ts, NEGATION)
    decreases |ts|
  {
    if ts != [] {
      var t, rest := HeardToken(ts[0], start), ts[1..];
      var heard := Heard(rest, Starts(t));
      assert ts == [ts[0]] + rest;
      HeardExactly(rest, Starts(t), !EndsOperand(ts[0]));
      PlacedRest(ts, start);
      CountConcat([t], heard, NEGATION);
      CountConcat([ts[0]], rest, NEGATION);
      CountOne(t, NEGATION);
      CountOne(ts[0], NEGATION);
      assert ([t] + heard)[1..] == heard;
    }
  }

  // Conservation: the parser neither drops nor repeats an operator.

  predicate IsOperator(t: Token) {
    t.Unary? || t.Binary?
  }

  function OperatorItem(t: Token): Item
    requires IsOperator(t)
  {
    if t.Unary? then Item.Unary(t.uop) else Item.Binary(t.bop)
  }

  function Waiting(ops: seq<Pending>, o: Token): nat {
    if ops == [] then 0 else Waiting(ops[..|ops| - 1], o) + (if ops[|ops| - 1].token == o then 1 else 0)
  }

  // An operator's items in the output and its entries on the stack.
  function Held(s: ParserState, o: Token): nat
    requires IsOperator(o)
  {
    Count(s.output, OperatorItem(o)) + Waiting(s.operators, o)
  }

  lemma WaitingPush(ops: seq<Pending>, p: Pending, o: Token)
    ensures Waiting(ops + [p], o) == Waiting(ops, o) + (if p.token == o then 1 else 0)
  {
    assert (ops + [p])[..|ops|] == ops;
  }

  lemma {:induction false} WaitingUpdate(ops: seq<Pending>, i: nat, p: Pending, o: Token)
    requires i < |ops| && ops[i].token != o && p.token != o
    ensures Waiting(ops[i := p], o) == Waiting(ops, o)
    decreases |ops|
  {
    var n := |ops| - 1;
    if i == n {
      assert ops[i := p][..n] == ops[..n];
    } else {
      assert ops[i := p][..n] == ops[..n][i := p];
      WaitingUpdate(ops[..n], i, p, o);
    }
  }

  lemma WaitingItems(ops: seq<Pending>, k: nat, o: Token)
    requires IsOperator(o)
    ensures Waiting(AddItems(ops, k), o) == Waiting(ops, o)
  {
    var pos := CountedSlot(ops);
    if pos < |ops| && IsArrayBuild(ops[pos].token) {
      WaitingUpdate(ops, pos, AddItems(ops, k)[pos], o);
    }
  }

  lemma HeldPush(s: ParserState, i: Item, o: Token)
    requires IsOperator(o)
    ensures Held(PushItem(s, i), o) == Held(s, o) + (if i == OperatorItem(o) then 1 else 0)
  {
    CountConcat(s.output, [i], OperatorItem(o));
    CountOne(i, OperatorItem(o));
  }

  lemma CountPatch(output: seq<Item>, jump: Option<nat>, x: Item)
    requires !x.JmpIf?
    ensures Count(Patch(output, jump), x) == Count(output, x)
  {
    if jump.Some? && jump.value < |output| && output[jump.value].JmpIf? {
      CountUpdate(output, jump.value, Patch(output, jump)[jump.value], x);
    }
  }

  lemma EmitHeld(output: seq<Item>, p: Pending, o: Token)
    requires IsOperator(o) && IsOperator(p.token)
    ensures Count(Emit(output, p), OperatorItem(o)) == Count(output, OperatorItem(o)) + (if p.token == o then 1 else 0)
  {
    var x, i := OperatorItem(o), OperatorItem(p.token);
    CountPatch(output, p.jump, x);
    CountConcat(output, [i], x);
    CountConcat(Patch(output, p.jump), [i], x);
    CountOne(i, x);
  }

  lemma {:induction false} DrainHeld(s: ParserState, m: int, o: Token)
    requires IsOperator(o)
    ensures Held(Drain(s, m), o) == Held(s, o)
    decreases |s.operators|
  {
    var n := |s.operators|;
    if n > 0 && Drainable(s.operators[n - 1].token, m) {
      EmitHeld(s.output, s.operators[n - 1], o);
      DrainHeld(EmitTop(s), m, o);
    }
  }

  lemma CloseHeld(s: ParserState, open: Token, o: Token)
    requires IsOperator(o) && !IsOperator(open) && Close(s, open).Ok?
    ensures Held(Close(s, open).value, o) == Held(s, o)
  {
    DrainHeld(s, 0, o);
    var d := Drain(s, 0);
    var below := d.(operators := d.operators[..|d.operators| - 1]);
    assert Held(below, o) == Held(d, o);
    CloseCallHeld(below, o);
  }

  lemma CloseCallHeld(s: ParserState, o: Token)
    requires IsOperator(o) && CloseCall(s).Ok?
    ensures Held(CloseCall(s).value, o) == Held(s, o)
  {
    var n := |s.operators|;
    if n > 0 && IsCall(s.operators[n - 1].token) {
      var m := |s.argCount|;
      var rest := s.(operators := s.operators[..n - 1], argCount := s.argCount[..m - 1]);
      assert Held(rest, o) == Held(s, o);
      var i := CloseCall(s).value.output[|s.output|];
      assert CloseCall(s).value == PushItem(rest, i);
      HeldPush(rest, i, o);
    }
  }

  lemma IncHeld(s: ParserState, o: Token)
    requires IsOperator(o)
    ensures Held(IncArgCount(s), o) == Held(s, o)
  {
    WaitingItems(s.operators, 1, o);
  }

  lemma OpenHeld(s: ParserState, t: Token, args: int, o: Token)
    requires IsOperator(o) && !IsOperator(t)
    ensures Held(OpenCall(s, t, args), o) == Held(s, o)
  {
    WaitingPush(s.operators, Pending(t, None), o);
  }

  lemma PushBinaryHeld(s: ParserState, op: BinaryOperator, o: Token)
    requires IsOperator(o)
    ensures Held(PushBinary(s, op), o) == Held(s, o) + (if Token.Binary(op) == o then 1 else 0)
  {
    var x := OperatorItem(o);
    CountConcat(s.output, JumpFor(op), x);
    CountOne(JmpIf(op == Or, 0), x);
    WaitingPush(s.operators, PushBinary(s, op).operators[|s.operators|], o);
  }

  lemma OperandHeld(s: ParserState, t: Token, o: Token)
    requires IsOperator(o) && (t.Variable? || t.Constant? || t.Capture?)
    ensures Held(Step(s, t).value, o) == Held(s, o)
  {
    var i :=
      match t
      case Variable(v) => Item.Variable(v)
      case Constant(c) => Item.Constant(c)
      case Capture(c) => Item.Capture(c);
    IncHeld(s, o);
    HeldPush(IncArgCount(s), i, o);
  }

  lemma CallHeld(s: ParserState, t: Token, o: Token)
    requires IsOperator(o) && IsCall(t)
    ensures Held(Step(s, t).value, o) == Held(s, o)
  {
    IncHeld(s, o);
    WaitingPush(IncArgCount(s).operators, Pending(t, None), o);
  }

  lemma PrefixHeld(s: ParserState, t: Token, o: Token)
    requires IsOperator(o) && (t.Unary? || t.OpenParen?)
    ensures Held(Step(s, t).value, o) == Held(s, o) + (if t == o then 1 else 0)
  {
    WaitingPush(s.operators, Pending(t, None), o);
  }

  lemma DelimiterHeld(s: ParserState, t: Token, o: Token)
    requires IsOperator(o) && (t.CloseParen? || t.CloseBracket? || t.OpenBracket? || t.Comma?) && Step(s, t).Ok?
    ensures Held(Step(s, t).value, o) == Held(s, o)
  {
    match t
    case CloseParen => CloseHeld(s, OpenParen, o);
    case CloseBracket => CloseHeld(s, OpenBracket, o);
    case OpenBracket => OpenArrayHeld(s, o);
    case Comma => DrainHeld(s, 0, o);
  }

  lemma StepHeld(s: ParserState, t: Token, o: Token)
    requires IsOperator(o) && Step(s, t).Ok?
    ensures Held(Step(s, t).value, o) == Held(s, o) + (if t == o then 1 else 0)
  {
    match t
    case Variable(_) | Constant(_) | Capture(_) => OperandHeld(s, t, o);
    case Function(_, _, _) | Regex(_) => CallHeld(s, t, o);
    case Unary(_) | OpenParen => PrefixHeld(s, t, o);
    case Binary(op) => BinaryHeld(s, op, o);
    case _ => DelimiterHeld(s, t, o);
  }

  lemma BinaryHeld(s: ParserState, op: BinaryOperator, o: Token)
    requires IsOperator(o)
    ensures Held(Step(s, Token.Binary(op)).value, o) == Held(s, o) + (if Token.Binary(op) == o then 1 else 0)
  {
    DrainHeld(DecArgCount(s), Precedence(op), o);
    PushBinaryHeld(Drain(DecArgCount(s), Precedence(op)), op, o);
  }

  lemma OpenArrayHeld(s: ParserState, o: Token)
    requires IsOperator(o)
    ensures Held(OpenArray(s), o) == Held(s, o)
  {
    IncHeld(s, o);
    var access := s.lastIsVarOrFnc;
    var counted := if access then s else IncArgCount(s);
    var called := OpenCall(counted, BracketCall(access), if access then 1 else 0);
    OpenHeld(counted, BracketCall(access), if access then 1 else 0, o);
    WaitingPush(called.operators, Pending(OpenBracket, None), o);
  }

  lemma {:induction false} RunHeld(s: ParserState, ts: seq<Token>, o: Token)
    requires IsOperator(o) && Run(s, ts).Ok?
    ensures Held(Run(s, ts).value, o) == Held(s, o) + Count(ts, o)
    decreases |ts|
  {
    if ts != [] {
      assert ts == [ts[0]] + ts[1..];
      CountConcat([ts[0]], ts[1..], o);
      CountOne(ts[0], o);
      StepHeld(s, ts[0], o);
      RunHeld(Step(s, ts[0]).value, ts[1..], o);
    }
  }

  /** An accepted stream is compiled to as many items of each operator as it has tokens of it. */
  lemma OperatorsAreConserved(ts: seq<Token>, o: Token)
    requires IsOperator(o) && ParseTokens(ts).Ok?
    ensures Count(ParseTokens(ts).value, OperatorItem(o)) == Count(ts, o)
  {
    RunHeld(Initial, ts, o);
    DrainHeld(Run(Initial, ts).value, 0, o);
  }

  // The reference code holds the operators of the printed tree, accepted or not.

  predicate SameCount(ts: seq<Token>, code: seq<Item>, o: Token)
    requires IsOperator(o)
  {
    Count(ts, o) == Count(code, OperatorItem(o))
  }

  lemma SameBoth(ta: seq<Token>, ca: seq<Item>, tb: seq<Token>, cb: seq<Item>, o: Token)
    requires IsOperator(o) && SameCount(ta, ca, o) && SameCount(tb, cb, o)
    ensures SameCount(ta + tb, ca + cb, o)
  {
    CountConcat(ta, tb, o);
    CountConcat(ca, cb, OperatorItem(o));
  }

  lemma {:induction false} CountNone<T>(s: seq<T>, x: T)
    requires x !in s
    ensures Count(s, x) == 0
    decreases |s|
  {
    if s != [] {
      CountNone(s[..|s| - 1], x);
    }
  }

  lemma {:induction false} TreeCounts(e: Expr, o: Token)
    requires IsOperator(o)
    ensures SameCount(Print(e), Compile(e), o)
    decreases e, 1
  {
    match e
    case Var(_) | Const(_) | Group(_) => LeafCounts(e, o);
    case Un(op, x) =>
      TreeCountsAt(x, UNARY_LEVEL, o);
      UnaryCounts(op, PrintAt(x, UNARY_LEVEL), Compile(x), o);
    case Bin(op, l, r) =>
      TreeCountsAt(l, Precedence(op), o);
      TreeCountsAt(r, Precedence(op) + 1, o);
      BinaryCounts(op, PrintAt(l, Precedence(op)), Compile(l), PrintAt(r, Precedence(op) + 1), Compile(r), o);
    case Index(b, i) =>
      TreeCountsAt(b, INDEXED_LEVEL, o);
      TreeCounts(i, o);
      IndexCounts(PrintAt(b, INDEXED_LEVEL), Compile(b), Print(i), Compile(i), o);
    case _ => GroupCounts(e, o);
  }

  lemma LeafCounts(e: Expr, o: Token)
    requires IsOperator(o) && (e.Var? || e.Const? || e.Group?)
    ensures SameCount(Print(e), Compile(e), o)
  {
    CountOne(Print(e)[0], o);
    CountOne(Compile(e)[0], OperatorItem(o));
  }

  lemma {:induction false} GroupCounts(e: Expr, o: Token)
    requires IsOperator(o) && (e.Call? || e.Match? || e.Array?)
    ensures SameCount(Print(e), Compile(e), o)
    decreases e, 0
  {
    match e
    case Call(name, id, n, args) =>
      ListCounts(args, o);
      CallCounts([Token.Function(name, id, n), OpenParen], PrintList(args), CloseParen,
                 CompileList(args), Item.Function(id, n), o);
    case Match(regex, x) =>
      TreeCounts(x, o);
      CallCounts([Token.Regex(regex), OpenParen], Print(x), CloseParen, Compile(x), Item.Regex(regex), o);
    case Array(items) =>
      ListCounts(items, o);
      CallCounts([OpenBracket], PrintList(items), CloseBracket,
                 CompileList(items), ArrayBuild(Wrap32(|items|)), o);
  }

  lemma UnaryCounts(op: UnaryOperator, tx: seq<Token>, cx: seq<Item>, o: Token)
    requires IsOperator(o) && SameCount(tx, cx, o)
    ensures SameCount([Token.Unary(op)] + tx, cx + [Item.Unary(op)], o)
  {
    CountConcat([Token.Unary(op)], tx, o);
    CountConcat(cx, [Item.Unary(op)], OperatorItem(o));
    CountOne(Token.Unary(op), o);
    CountOne(Item.Unary(op), OperatorItem(o));
  }

  lemma BinaryItems(op: BinaryOperator, cl: seq<Item>, cr: seq<Item>, x: Item)
    requires !x.JmpIf?
    ensures Count(CompileBinary(op, cl, cr), x) == Count(cl, x) + Count(cr, x) + (if Item.Binary(op) == x then 1 else 0)
  {
    var jump := ShortCircuit(op, |cr|);
    CountNone(jump, x);
    CountJoined(cl, jump, cr, x);
    CountConcat(cl + jump + cr, [Item.Binary(op)], x);
    CountOne(Item.Binary(op), x);
  }

  lemma BinaryCounts(op: BinaryOperator, tl: seq<Token>, cl: seq<Item>, tr: seq<Token>, cr: seq<Item>, o: Token)
    requires IsOperator(o) && SameCount(tl, cl, o) && SameCount(tr, cr, o)
    ensures SameCount(tl + [Token.Binary(op)] + tr, CompileBinary(op, cl, cr), o)
  {
    CountJoined(tl, [Token.Binary(op)], tr, o);
    CountOne(Token.Binary(op), o);
    BinaryItems(op, cl, cr, OperatorItem(o));
  }

  lemma CountJoined<T>(a: seq<T>, b: seq<T>, c: seq<T>, x: T)
    ensures Count(a + b + c, x) == Count(a, x) + Count(b, x) + Count(c, x)
  {
    CountConcat(a, b, x);
    CountConcat(a + b, c, x);
  }

  lemma CallCounts(open: seq<Token>, ts: seq<Token>, close: Token, code: seq<Item>, call: Item, o: Token)
    requires IsOperator(o) && SameCount(ts, code, o) && o !in open && o != close && call != OperatorItem(o)
    ensures SameCount(open + ts + [close], code + [call], o)
  {
    CountNone(open, o);
    CountConcat(open, ts, o);
    CountConcat(open + ts, [close], o);
    CountOne(close, o);
    CountConcat(code, [call], OperatorItem(o));
    CountOne(call, OperatorItem(o));
  }

  lemma IndexCounts(tb: seq<Token>, cb: seq<Item>, ti: seq<Token>, ci: seq<Item>, o: Token)
    requires IsOperator(o) && SameCount(tb, cb, o) && SameCount(ti, ci, o)
    ensures SameCount(tb + [OpenBracket] + ti + [CloseBracket], cb + ci + [ArrayAccess], o)
  {
    var x := OperatorItem(o);
    CountConcat(tb, [OpenBracket], o);
    CountOne(OpenBracket, o);
    SameBoth(tb + [OpenBracket], cb, ti, ci, o);
    CountConcat(tb + [OpenBracket] + ti, [CloseBracket], o);
    CountOne(CloseBracket, o);
    CountConcat(cb + ci, [ArrayAccess], x);
    CountOne(ArrayAccess, x);
  }

  lemma {:induction false} TreeCountsAt(e: Expr, level: int, o: Token)
    requires IsOperator(o)
    ensures SameCount(PrintAt(e, level), Compile(e), o)
    decreases e, 2
  {
    TreeCounts(e, o);
    if Level(e) < level {
      CountConcat([OpenParen], Print(e), o);
      CountConcat([OpenParen] + Print(e), [CloseParen], o);
      CountOne(OpenParen, o);
      CountOne(CloseParen, o);
    }
  }

  lemma {:induction false} ListCounts(es: seq<Expr>, o: Token)
    requires IsOperator(o)
    ensures SameCount(PrintList(es), CompileList(es), o)
    decreases es
  {
    if es != [] {
      TreeCounts(es[0], o);
      ListCounts(es[1..], o);
      CountConcat(Compile(es[0]), CompileList(es[1..]), OperatorItem(o));
      if |es| > 1 {
        CountConcat(Print(es[0]), [Comma], o);
        CountConcat(Print(es[0]) + [Comma], PrintList(es[1..]), o);
        CountOne(Comma, o);
      }
    }
  }

  /** The text of a tree is compiled to the tree's code exactly when the tree is accepted and no minus
      stands right after a bracket or another unary operator. */
  lemma TextMeansTree(e: Expr)
    requires |Print(e)| < I32_RANGE
    ensures ParseTokens(Heard(Print(e), true)) == Ok(Compile(e)) <==> Accepted(e) && Placed(Print(e), true)
  {
    var ts := Print(e);
    PrintShaped(e);
    HeardExactly(ts, true, true);
    CompilesExactly(e);
    if ParseTokens(Heard(ts, true)) == Ok(Compile(e)) {
      OperatorsAreConserved(Heard(ts, true), NEGATION);
      TreeCounts(e, NEGATION);
    }
  }
}
