/** What every token stream, grammatical or not, does to the parser's short-circuit jumps. */
module ExpressionJumps {
  import opened Wrappers
  import opened Expressions
  import opened ExpressionParser

  // The index a jump at j skips to is one past its operator.
  function Target(output: seq<Item>, j: nat): nat
    requires j < |output| && output[j].JmpIf?
  {
    j + output[j].pos
  }

  function OperatorOf(val: bool): Item {
    Item.Binary(if val then Or else And)
  }

  // The jump at j has been patched and lands just after an operator of its own kind.
  predicate Closed(output: seq<Item>, j: nat) {
    && j < |output| && output[j].JmpIf?
    && output[j].pos > 0
    && Target(output, j) < |output|
    && output[Target(output, j)] == OperatorOf(output[j].val)
  }

  predicate IsPending(operators: seq<Pending>, j: nat) {
    exists i :: 0 <= i < |operators| && operators[i].jump == Some(j)
  }

  // Closed jumps are nested or disjoint, and no two share an operator.
  predicate Laminar(output: seq<Item>) {
    forall j, k | 0 <= j < k < |output| && Closed(output, j) && Closed(output, k) ::
      Target(output, j) < k || Target(output, k) < Target(output, j)
  }

  predicate Landed(output: seq<Item>, k: nat) {
    exists j :: 0 <= j < k && Closed(output, j) && Target(output, j) == k
  }

  // Every short-circuit operator in the output is the landing point of a jump.
  predicate AllLanded(output: seq<Item>) {
    forall k | 0 <= k < |output| && output[k].Binary? && IsShortCircuit(output[k].bop) ::
      Landed(output, k)
  }

  predicate Linked(output: seq<Item>, p: Pending) {
    if p.token.Binary? && IsShortCircuit(p.token.bop) then
      && p.jump.Some? && p.jump.value < |output|
      && output[p.jump.value] == JmpIf(p.token.bop == Or, 0)
    else
      p.jump.None?
  }

  predicate Increasing(operators: seq<Pending>) {
    forall a, b | 0 <= a < b < |operators| && operators[a].jump.Some? && operators[b].jump.Some? ::
      operators[a].jump.value < operators[b].jump.value
  }

  predicate Apart(output: seq<Item>, operators: seq<Pending>) {
    forall j, i | 0 <= j < |output| && Closed(output, j)
                  && 0 <= i < |operators| && operators[i].jump.Some? ::
      operators[i].jump.value < j || Target(output, j) < operators[i].jump.value
  }

  /** The jumps of a parser state: patched ones are closed, the others are held by the stack. */
  predicate JumpsOk(output: seq<Item>, operators: seq<Pending>) {
    && (forall i | 0 <= i < |operators| :: Linked(output, operators[i]))
    && Increasing(operators)
    && (forall j | 0 <= j < |output| && output[j].JmpIf? :: Closed(output, j) || IsPending(operators, j))
    && Laminar(output)
    && AllLanded(output)
    && Apart(output, operators)
  }

  function CallCount(operators: seq<Pending>): nat {
    if operators == [] then 0
    else CallCount(operators[..|operators| - 1]) + (if IsCall(operators[|operators| - 1].token) then 1 else 0)
  }

  /** The invariant of every reachable parser state; `fed` tokens have been consumed. */
  predicate ParserInv(s: ParserState, fed: nat) {
    && JumpsOk(s.output, s.operators)
    && |s.argCount| == CallCount(s.operators)
    && |s.output| + |s.operators| <= 2 * fed
  }

  lemma CallCountSnoc(ops: seq<Pending>, p: Pending)
    ensures CallCount(ops + [p]) == CallCount(ops) + (if IsCall(p.token) then 1 else 0)
  {
    assert (ops + [p])[..|ops|] == ops;
  }

  // o extends output and has exactly the same closed jumps.
  ghost predicate SameClosed(output: seq<Item>, o: seq<Item>) {
    && output <= o
    && (forall j: nat :: Closed(output, j) ==> Closed(o, j))
    && (forall j: nat :: Closed(o, j) ==> Closed(output, j))
  }

  lemma AppendSameClosed(output: seq<Item>, i: Item)
    requires i.Binary? ==> !IsShortCircuit(i.bop)
    ensures SameClosed(output, output + [i])
  {
  }

  lemma SameOrder(output: seq<Item>, o: seq<Item>, operators: seq<Pending>)
    requires SameClosed(output, o) && Laminar(output) && Apart(output, operators)
    ensures Laminar(o) && Apart(o, operators)
  {
  }

  lemma SameLanded(output: seq<Item>, o: seq<Item>)
    requires SameClosed(output, o) && AllLanded(output)
    requires forall k | |output| <= k < |o| :: o[k].Binary? ==> !IsShortCircuit(o[k].bop)
    ensures AllLanded(o)
  {
    forall k | 0 <= k < |o| && o[k].Binary? && IsShortCircuit(o[k].bop) ensures Landed(o, k) {
      assert Landed(output, k);
      var j :| 0 <= j < k && Closed(output, j) && Target(output, j) == k;
      assert Closed(o, j) && Target(o, j) == k;
    }
  }

  lemma AppendPlain(output: seq<Item>, operators: seq<Pending>, i: Item)
    requires JumpsOk(output, operators)
    requires !i.JmpIf? && (i.Binary? ==> !IsShortCircuit(i.bop))
    ensures JumpsOk(output + [i], operators)
  {
    AppendSameClosed(output, i);
    SameOrder(output, output + [i], operators);
    SameLanded(output, output + [i]);
    forall k | 0 <= k < |operators| ensures Linked(output + [i], operators[k]) {
      assert Linked(output, operators[k]);
    }
  }

  // Pushing a token that carries no jump.
  lemma PushNoJump(output: seq<Item>, operators: seq<Pending>, p: Pending)
    requires JumpsOk(output, operators)
    requires p.jump.None? && (p.token.Binary? ==> !IsShortCircuit(p.token.bop))
    ensures JumpsOk(output, operators + [p])
  {
    var ops := operators + [p];
    forall j: nat | IsPending(operators, j) ensures IsPending(ops, j) {
      var i :| 0 <= i < |operators| && operators[i].jump == Some(j);
      assert ops[i].jump == Some(j);
    }
  }

  // Pushing a short-circuit operator together with its unpatched jump.
  lemma PushJump(output: seq<Item>, operators: seq<Pending>, op: BinaryOperator)
    requires JumpsOk(output, operators) && IsShortCircuit(op)
    ensures JumpsOk(output + JumpFor(op), operators + [Pending(Token.Binary(op), Some(|output|))])
  {
    var o := output + JumpFor(op);
    var ops := operators + [Pending(Token.Binary(op), Some(|output|))];
    AppendSameClosed(output, JumpFor(op)[0]);
    SameOrder(output, o, operators);
    SameLanded(output, o);
    forall i | 0 <= i < |ops| ensures Linked(o, ops[i]) {
      assert i < |operators| ==> Linked(output, operators[i]);
    }
    forall j: nat | j < |o| && o[j].JmpIf? ensures Closed(o, j) || IsPending(ops, j) {
      if j == |output| {
        assert ops[|operators|].jump == Some(j);
      } else if IsPending(operators, j) {
        var i :| 0 <= i < |operators| && operators[i].jump == Some(j);
        assert ops[i].jump == Some(j);
      } else {
        assert Closed(output, j);
      }
    }
    PushJumpOrder(output, operators, o, ops);
  }

  lemma PushJumpOrder(output: seq<Item>, operators: seq<Pending>, o: seq<Item>, ops: seq<Pending>)
    requires SameClosed(output, o) && Apart(o, operators) && Increasing(operators)
    requires |ops| == |operators| + 1 && operators <= ops && ops[|operators|].jump == Some(|output|)
    requires forall i | 0 <= i < |operators| && operators[i].jump.Some? :: operators[i].jump.value < |output|
    ensures Apart(o, ops) && Increasing(ops)
  {
    forall j, i | 0 <= j < |o| && Closed(o, j) && 0 <= i < |ops| && ops[i].jump.Some?
      ensures ops[i].jump.value < j || Target(o, j) < ops[i].jump.value
    {
      assert Closed(output, j);
      assert i < |operators| ==> operators[i].jump.Some?;
    }
  }

  lemma PopNoJump(output: seq<Item>, operators: seq<Pending>)
    requires JumpsOk(output, operators) && operators != []
    requires operators[|operators| - 1].jump.None?
    ensures JumpsOk(output, operators[..|operators| - 1])
  {
    var ops := operators[..|operators| - 1];
    forall j: nat | IsPending(operators, j) ensures IsPending(ops, j) {
      var i :| 0 <= i < |operators| && operators[i].jump == Some(j);
      assert ops[i].jump == Some(j);
    }
  }

  // Moving a short-circuit operator to the output closes its jump.
  lemma EmitJump(output: seq<Item>, operators: seq<Pending>)
    requires JumpsOk(output, operators) && operators != [] && |output| < U32_RANGE
    requires operators[|operators| - 1].jump.Some?
    ensures JumpsOk(Emit(output, operators[|operators| - 1]), operators[..|operators| - 1])
  {
    var n := |operators| - 1;
    var p := operators[n];
    assert Linked(output, p);
    var q := p.jump.value;
    var ops := operators[..n];
    var o := Emit(output, p);
    assert |o| == |output| + 1 && o[q] == JmpIf(output[q].val, |output| - q);
    assert o[|output|] == OperatorOf(o[q].val);
    assert Closed(o, q) && Target(o, q) == |output|;
    assert forall j: nat | j != q && j < |output| :: o[j] == output[j];
    EmitJumpClosed(output, operators, o, q);
    EmitJumpOrder(output, operators, o, q);
    EmitJumpLanded(output, o, q);
    forall j: nat | j < |o| && o[j].JmpIf? ensures Closed(o, j) || IsPending(ops, j) {
      if j != q && !Closed(output, j) {
        assert j < |output| && output[j].JmpIf?;
        assert IsPending(operators, j);
        var i :| 0 <= i < |operators| && operators[i].jump == Some(j);
        assert ops[i].jump == Some(j);
      }
    }
    forall i | 0 <= i < |ops| ensures Linked(o, ops[i]) {
      assert Linked(output, operators[i]);
      if operators[i].jump.Some? {
        assert operators[i].jump.value < q;
      }
    }
  }

  lemma EmitJumpClosed(output: seq<Item>, operators: seq<Pending>, o: seq<Item>, q: nat)
    requires forall i | 0 <= i < |operators| :: Linked(output, operators[i])
    requires forall j | 0 <= j < |output| && output[j].JmpIf? :: Closed(output, j) || IsPending(operators, j)
    requires |o| == |output| + 1 && q < |output| && output[q].JmpIf?
    requires forall j: nat | j != q && j < |output| :: o[j] == output[j]
    requires o[|output|].Binary?
    ensures forall j: nat | j != q :: Closed(o, j) <==> Closed(output, j)
  {
    forall j: nat | j != q ensures Closed(o, j) <==> Closed(output, j) {
      if Closed(output, j) {
        assert Target(output, j) != q;
      } else if j < |output| && output[j].JmpIf? {
        assert IsPending(operators, j);
        var i :| 0 <= i < |operators| && operators[i].jump == Some(j);
        assert Linked(output, operators[i]);
      }
    }
  }

  lemma EmitJumpLanded(output: seq<Item>, o: seq<Item>, q: nat)
    requires AllLanded(output)
    requires |o| == |output| + 1 && q < |output| && output[q].JmpIf? && o[q].JmpIf?
    requires forall j: nat | j != q && j < |output| :: o[j] == output[j]
    requires forall j: nat | j != q :: Closed(o, j) <==> Closed(output, j)
    requires !Closed(output, q) && Closed(o, q) && Target(o, q) == |output|
    ensures AllLanded(o)
  {
    forall k | 0 <= k < |o| && o[k].Binary? && IsShortCircuit(o[k].bop) ensures Landed(o, k) {
      if k == |output| {
        assert Closed(o, q) && Target(o, q) == k;
      } else {
        assert Landed(output, k);
        var j :| 0 <= j < k && Closed(output, j) && Target(output, j) == k;
        assert Closed(o, j) && Target(o, j) == k;
      }
    }
  }

  lemma EmitJumpOrder(output: seq<Item>, operators: seq<Pending>, o: seq<Item>, q: nat)
    requires JumpsOk(output, operators) && operators != []
    requires operators[|operators| - 1].jump == Some(q)
    requires |o| == |output| + 1 && q < |output|
    requires forall j: nat | j != q && j < |output| :: o[j] == output[j]
    requires forall j: nat | j != q :: Closed(o, j) <==> Closed(output, j)
    requires Closed(o, q) && Target(o, q) == |output|
    ensures Laminar(o)
    ensures Apart(o, operators[..|operators| - 1])
  {
    var n := |operators| - 1;
    forall j, k | 0 <= j < k < |o| && Closed(o, j) && Closed(o, k)
      ensures Target(o, j) < k || Target(o, k) < Target(o, j)
    {
      if j == q {
        assert Closed(output, k) && Target(output, k) < |output|;
      } else if k == q {
        assert Closed(output, j) && operators[n].jump.Some?;
      } else {
        assert Closed(output, j) && Closed(output, k);
      }
    }
    forall j, i | 0 <= j < |o| && Closed(o, j) && 0 <= i < n && operators[i].jump.Some?
      ensures operators[i].jump.value < j || Target(o, j) < operators[i].jump.value
    {
      assert operators[i].jump.value < q;
      if j != q {
        assert Closed(output, j);
      }
    }
  }

  lemma EmitTopInv(s: ParserState, fed: nat)
    requires ParserInv(s, fed) && 2 * fed < U32_RANGE
    requires s.operators != [] && Drainable(s.operators[|s.operators| - 1].token, 0)
    ensures ParserInv(EmitTop(s), fed)
  {
    var n := |s.operators|;
    var p := s.operators[n - 1];
    assert Linked(s.output, p);
    if p.jump.Some? {
      EmitJump(s.output, s.operators);
    } else {
      PopNoJump(s.output, s.operators);
      AppendPlain(s.output, s.operators[..n - 1], EmitTop(s).output[|s.output|]);
    }
  }

  lemma DrainInv(s: ParserState, m: int, fed: nat)
    requires ParserInv(s, fed) && 2 * fed < U32_RANGE
    ensures ParserInv(Drain(s, m), fed)
    ensures Drain(s, m).argCount == s.argCount
    decreases |s.operators|
  {
    var n := |s.operators|;
    if n > 0 && Drainable(s.operators[n - 1].token, m) {
      EmitTopInv(s, fed);
      DrainInv(EmitTop(s), m, fed);
    }
  }

  lemma AddItemsKeeps(output: seq<Item>, operators: seq<Pending>, k: nat)
    requires JumpsOk(output, operators)
    ensures JumpsOk(output, AddItems(operators, k))
    ensures CallCount(AddItems(operators, k)) == CallCount(operators)
  {
    var ops := AddItems(operators, k);
    assert forall i | 0 <= i < |ops| :: ops[i].jump == operators[i].jump
                                        && (ops[i].token == operators[i].token
                                            || (ops[i].token.Function? && operators[i].token.Function?));
    forall j: nat | IsPending(operators, j) ensures IsPending(ops, j) {
      var i :| 0 <= i < |operators| && operators[i].jump == Some(j);
      assert ops[i].jump == Some(j);
    }
    forall i | 0 <= i < |ops| ensures Linked(output, ops[i]) {
      assert Linked(output, operators[i]);
    }
    SameCalls(operators, ops);
  }

  lemma {:induction false} SameCalls(a: seq<Pending>, b: seq<Pending>)
    requires |a| == |b| && forall i | 0 <= i < |a| :: IsCall(a[i].token) == IsCall(b[i].token)
    ensures CallCount(a) == CallCount(b)
  {
    if a != [] {
      SameCalls(a[..|a| - 1], b[..|b| - 1]);
    }
  }

  lemma IncInv(s: ParserState, fed: nat)
    requires ParserInv(s, fed)
    ensures ParserInv(IncArgCount(s), fed)
  {
    AddItemsKeeps(s.output, s.operators, 1);
  }

  lemma PushTokenInv(s: ParserState, t: Token)
    requires JumpsOk(s.output, s.operators) && !t.Binary?
    ensures JumpsOk(PushToken(s, t).output, PushToken(s, t).operators)
    ensures CallCount(PushToken(s, t).operators) == CallCount(s.operators) + (if IsCall(t) then 1 else 0)
  {
    PushNoJump(s.output, s.operators, Pending(t, None));
    CallCountSnoc(s.operators, Pending(t, None));
  }

  lemma OpenArrayInv(s: ParserState, fed: nat)
    requires ParserInv(s, fed)
    ensures ParserInv(OpenArray(s), fed + 1)
  {
    var access := s.lastIsVarOrFnc;
    IncInv(s, fed);
    var c := if access then s else IncArgCount(s);
    var args := c.argCount + [if access then 1 else 0];
    PushTokenInv(c.(argCount := args), BracketCall(access));
    PushTokenInv(OpenCall(c, BracketCall(access), if access then 1 else 0), OpenBracket);
  }

  lemma PushBinaryInv(s: ParserState, op: BinaryOperator, fed: nat)
    requires ParserInv(s, fed)
    ensures ParserInv(PushBinary(s, op), fed + 1)
  {
    if IsShortCircuit(op) {
      PushJump(s.output, s.operators, op);
      CallCountSnoc(s.operators, Pending(Token.Binary(op), Some(|s.output|)));
    } else {
      assert s.output + JumpFor(op) == s.output;
      PushNoJump(s.output, s.operators, Pending(Token.Binary(op), None));
      CallCountSnoc(s.operators, Pending(Token.Binary(op), None));
    }
  }

  lemma CloseCallInv(e: ParserState, fed: nat)
    requires ParserInv(e, fed)
    ensures CloseCall(e) != Err(Panic)
    ensures CloseCall(e).Ok? ==> ParserInv(CloseCall(e).value, fed)
  {
    var m := |e.operators|;
    if m > 0 && IsCall(e.operators[m - 1].token) {
      assert Linked(e.output, e.operators[m - 1]);
      PopNoJump(e.output, e.operators);
      if CloseCall(e).Ok? {
        var o := CloseCall(e).value.output;
        assert o == e.output + [o[|e.output|]];
        AppendPlain(e.output, e.operators[..m - 1], o[|e.output|]);
      }
    }
  }

  lemma PopDelimiterInv(d: ParserState, fed: nat)
    requires ParserInv(d, fed) && d.operators != []
    requires var t := d.operators[|d.operators| - 1].token; t.OpenParen? || t.OpenBracket?
    ensures ParserInv(d.(operators := d.operators[..|d.operators| - 1]), fed)
  {
    assert Linked(d.output, d.operators[|d.operators| - 1]);
    PopNoJump(d.output, d.operators);
  }

  lemma CloseInv(s: ParserState, open: Token, fed: nat)
    requires ParserInv(s, fed) && 2 * fed < U32_RANGE && (open.OpenParen? || open.OpenBracket?)
    ensures Close(s, open) != Err(Panic)
    ensures Close(s, open).Ok? ==> ParserInv(Close(s, open).value, fed)
  {
    DrainInv(s, 0, fed);
    var d := Drain(s, 0);
    var n := |d.operators|;
    if n > 0 && d.operators[n - 1].token == open {
      PopDelimiterInv(d, fed);
      CloseCallInv(d.(operators := d.operators[..n - 1]), fed);
    }
  }

  lemma OperandInv(s: ParserState, i: Item, fed: nat)
    requires ParserInv(s, fed) && !i.JmpIf? && !i.Binary?
    ensures ParserInv(PushItem(IncArgCount(s), i), fed + 1)
  {
    IncInv(s, fed);
    AppendPlain(IncArgCount(s).output, IncArgCount(s).operators, i);
  }

  lemma OpenCallInv(s: ParserState, t: Token, fed: nat)
    requires ParserInv(s, fed) && IsCall(t)
    ensures ParserInv(OpenCall(IncArgCount(s), t, 0), fed + 1)
  {
    IncInv(s, fed);
    var c := IncArgCount(s);
    PushTokenInv(c.(argCount := c.argCount + [0]), t);
  }

  /** One token keeps the invariant, and never unwraps an empty argument-count stack. */
  lemma StepInv(s: ParserState, t: Token, fed: nat)
    requires ParserInv(s, fed) && 2 * (fed + 1) < U32_RANGE
    ensures Step(s, t) != Err(Panic)
    ensures Step(s, t).Ok? ==> ParserInv(Step(s, t).value, fed + 1)
  {
    match t
    case Variable(v) => OperandInv(s, Item.Variable(v), fed);
    case Constant(k) => OperandInv(s, Item.Constant(k), fed);
    case Capture(k) => OperandInv(s, Item.Capture(k), fed);
    case Function(_, _, _) => OpenCallInv(s, t, fed);
    case Regex(_) => OpenCallInv(s, t, fed);
    case OpenBracket => OpenArrayInv(s, fed);
    case _ => StepOperatorInv(s, t, fed);
  }

  lemma StepOperatorInv(s: ParserState, t: Token, fed: nat)
    requires ParserInv(s, fed) && 2 * (fed + 1) < U32_RANGE
    requires t.Unary? || t.Binary? || t.OpenParen? || t.CloseParen? || t.CloseBracket? || t.Comma?
    ensures Step(s, t) != Err(Panic)
    ensures Step(s, t).Ok? ==> ParserInv(Step(s, t).value, fed + 1)
  {
    match t
    case Unary(_) => PushTokenInv(s, t);
    case OpenParen => PushTokenInv(s, t);
    case CloseParen => CloseInv(s, OpenParen, fed);
    case CloseBracket => CloseInv(s, OpenBracket, fed);
    case Binary(op) => BinaryInv(s, op, fed);
    case Comma => DrainInv(s, 0, fed);
  }

  lemma BinaryInv(s: ParserState, op: BinaryOperator, fed: nat)
    requires ParserInv(s, fed) && 2 * (fed + 1) < U32_RANGE
    ensures ParserInv(Step(s, Token.Binary(op)).value, fed + 1)
  {
    DrainInv(DecArgCount(s), Precedence(op), fed);
    PushBinaryInv(Drain(DecArgCount(s), Precedence(op)), op, fed);
  }

  lemma {:induction false} RunInv(s: ParserState, tokens: seq<Token>, fed: nat)
    requires ParserInv(s, fed) && 2 * (fed + |tokens|) < U32_RANGE
    ensures Run(s, tokens) != Err(Panic)
    ensures Run(s, tokens).Ok? ==> ParserInv(Run(s, tokens).value, fed + |tokens|)
    decreases |tokens|
  {
    if tokens != [] {
      StepInv(s, tokens[0], fed);
      if Step(s, tokens[0]).Ok? {
        RunInv(Step(s, tokens[0]).value, tokens[1..], fed + 1);
      }
    }
  }

  /** For every token stream: the argument-count unwrap never fails, and if the stream is
      accepted then every jump lands just after an `&&`/`||` of its own inside the output,
      every such operator is the landing point of a jump, and jump intervals are nested or
      disjoint. */
  lemma JumpsOfAcceptedStreams(tokens: seq<Token>)
    requires 2 * |tokens| < U32_RANGE
    ensures ParseTokens(tokens) != Err(Panic)
    ensures ParseTokens(tokens).Ok? ==>
              var code := ParseTokens(tokens).value;
              && |code| <= 2 * |tokens|
              && (forall j | 0 <= j < |code| && code[j].JmpIf? :: Closed(code, j))
              && Laminar(code)
              && AllLanded(code)
  {
    RunInv(Initial, tokens, 0);
    var r := Run(Initial, tokens);
    if r.Ok? {
      DrainInv(r.value, 0, |tokens|);
    }
  }
}
