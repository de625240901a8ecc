/** The one-pass shunting-yard compiler, as a step function on parser states. */
module ExpressionParser {
  import opened Wrappers
  import opened Expressions

  datatype ParseError =
    | MismatchedParentheses
    | WrongArgumentCount(name: string, expected: nat, got: int)
    | MissingArrayIndex
    | MatchesArity
    | InvalidTokenOnStack
    | Panic  // an unwrap of an empty argument-count stack

  /** An entry of the operator stack: the token and the output position of its pending jump. */
  datatype Pending = Pending(token: Token, jump: Option<nat>)

  datatype ParserState = ParserState(
    output: seq<Item>,
    operators: seq<Pending>,
    argCount: seq<int>,
    lastIsVarOrFnc: bool)

  const Initial := ParserState([], [], [], false)

  // 32-bit arithmetic of the source.

  function SaturatingInc(x: int): int {
    if x < I32_RANGE - 1 then x + 1 else x
  }

  function SaturatingDec(x: int): int {
    if -I32_RANGE < x then x - 1 else x
  }

  function AsI32(n: u32): int {
    if n < I32_RANGE then n else n - U32_RANGE
  }

  predicate IsArrayBuild(t: Token) {
    t.Function? && t.id == ARRAY_BUILD
  }

  predicate IsCall(t: Token) {
    t.Function? || t.Regex?
  }

  // The operator-stack slot that counting an argument inspects.
  function CountedSlot(operators: seq<Pending>): nat {
    if |operators| >= 2 then |operators| - 2 else 0
  }

  // Adds k to the item count of an array literal whose bracket is on top of the stack.
  function AddItems(operators: seq<Pending>, k: nat): (r: seq<Pending>)
    ensures |r| == |operators|
  {
    var pos := CountedSlot(operators);
    if pos < |operators| && IsArrayBuild(operators[pos].token) then
      var t := operators[pos].token;
      operators[pos := operators[pos].(token := t.(numArgs := Wrap32(t.numArgs + k)))]
    else
      operators
  }

  function MapLast(args: seq<int>, f: int -> int): seq<int> {
    if args == [] then [] else args[|args| - 1 := f(args[|args| - 1])]
  }

  function IncArgCount(s: ParserState): ParserState {
    if s.argCount == [] then s
    else s.(argCount := MapLast(s.argCount, SaturatingInc), operators := AddItems(s.operators, 1))
  }

  function DecArgCount(s: ParserState): ParserState {
    s.(argCount := MapLast(s.argCount, SaturatingDec))
  }

  function Patch(output: seq<Item>, jump: Option<nat>): (r: seq<Item>)
    ensures |r| == |output|
  {
    if jump.Some? && jump.value < |output| && output[jump.value].JmpIf? then
      output[jump.value := output[jump.value].(pos := Wrap32(|output| - jump.value))]
    else
      output
  }

  // Output after an operator is moved to it from the stack.
  function Emit(output: seq<Item>, p: Pending): (r: seq<Item>) {
    match p.token
    case Binary(bop) => Patch(output, p.jump) + [Item.Binary(bop)]
    case Unary(uop) => output + [Item.Unary(uop)]
    case _ => output
  }

  predicate Drainable(t: Token, minPrecedence: int) {
    t.Unary? || (t.Binary? && minPrecedence <= Precedence(t.bop))
  }

  function EmitTop(s: ParserState): ParserState
    requires s.operators != []
  {
    var n := |s.operators|;
    s.(output := Emit(s.output, s.operators[n - 1]), operators := s.operators[..n - 1])
  }

  // Moves unary operators and operators of at least the given precedence to the output.
  function Drain(s: ParserState, minPrecedence: int): (r: ParserState)
    decreases |s.operators|
  {
    if s.operators != [] && Drainable(s.operators[|s.operators| - 1].token, minPrecedence) then
      Drain(EmitTop(s), minPrecedence)
    else
      s
  }

  lemma DrainPush(s: ParserState, p: Pending, m: int)
    requires Drainable(p.token, m)
    ensures Drain(s.(operators := s.operators + [p]), m) == Drain(s.(output := Emit(s.output, p)), m)
  {
    assert (s.operators + [p])[..|s.operators|] == s.operators;
  }

  function PushToken(s: ParserState, t: Token): ParserState {
    s.(operators := s.operators + [Pending(t, None)])
  }

  function PushItem(s: ParserState, i: Item): ParserState {
    s.(output := s.output + [i])
  }

  function JumpFor(op: BinaryOperator): seq<Item> {
    if IsShortCircuit(op) then [JmpIf(op == Or, 0)] else []
  }

  function PushBinary(s: ParserState, op: BinaryOperator): ParserState {
    var jump := if IsShortCircuit(op) then Some(|s.output|) else None;
    s.(output := s.output + JumpFor(op),
       operators := s.operators + [Pending(Token.Binary(op), jump)])
  }

  function CallItem(id: u32, numArgs: u32): Item {
    if id == ARRAY_ACCESS then ArrayAccess
    else if id == ARRAY_BUILD then ArrayBuild(numArgs)
    else Item.Function(id, numArgs)
  }

  // What a closing delimiter does to the call it completes, if any.
  function CloseCall(s: ParserState): Result<ParserState, ParseError> {
    var n := |s.operators|;
    if n == 0 || !IsCall(s.operators[n - 1].token) then Ok(s)
    else if s.argCount == [] then Err(Panic)
    else
      var m := |s.argCount|;
      var got := s.argCount[m - 1];
      var rest := s.(operators := s.operators[..n - 1], argCount := s.argCount[..m - 1]);
      match s.operators[n - 1].token
      case Function(name, id, numArgs) =>
        if got != AsI32(numArgs) then
          Err(if id != ARRAY_ACCESS then WrongArgumentCount(name, numArgs, got) else MissingArrayIndex)
        else Ok(PushItem(rest, CallItem(id, numArgs)))
      case Regex(regex) =>
        if got != 1 then Err(MatchesArity) else Ok(PushItem(rest, Item.Regex(regex)))
  }

  // A closing delimiter whose operators are already drained.
  function CloseDrained(d: ParserState, open: Token): Result<ParserState, ParseError> {
    var n := |d.operators|;
    if n > 0 && d.operators[n - 1].token == open then
      CloseCall(d.(operators := d.operators[..n - 1]))
    else
      Err(MismatchedParentheses)
  }

  function Close(s: ParserState, open: Token): Result<ParserState, ParseError> {
    CloseDrained(Drain(s, 0), open)
  }

  function SetLast(r: Result<ParserState, ParseError>, last: bool): Result<ParserState, ParseError> {
    match r
    case Ok(s) => Ok(s.(lastIsVarOrFnc := last))
    case Err(_) => r
  }

  function OpenCall(s: ParserState, t: Token, args: int): ParserState {
    PushToken(s.(argCount := s.argCount + [args]), t)
  }

  function BracketCall(access: bool): Token {
    Token.Function("array", if access then ARRAY_ACCESS else ARRAY_BUILD, if access then 2 else 0)
  }

  function OpenArray(s: ParserState): ParserState {
    var access := s.lastIsVarOrFnc;
    var counted := if access then s else IncArgCount(s);
    PushToken(OpenCall(counted, BracketCall(access), if access then 1 else 0), OpenBracket)
  }

  function Step(s: ParserState, t: Token): Result<ParserState, ParseError> {
    match t
    case Variable(v) => SetLast(Ok(PushItem(IncArgCount(s), Item.Variable(v))), true)
    case Constant(c) => SetLast(Ok(PushItem(IncArgCount(s), Item.Constant(c))), false)
    case Capture(c) => SetLast(Ok(PushItem(IncArgCount(s), Item.Capture(c))), false)
    case Unary(_) => SetLast(Ok(PushToken(s, t)), false)
    case OpenParen => SetLast(Ok(PushToken(s, t)), false)
    case CloseParen => SetLast(Close(s, OpenParen), true)
    case CloseBracket => SetLast(Close(s, OpenBracket), true)
    case Binary(op) => SetLast(Ok(PushBinary(Drain(DecArgCount(s), Precedence(op)), op)), false)
    case Function(_, _, _) => SetLast(Ok(OpenCall(IncArgCount(s), t, 0)), false)
    case Regex(_) => SetLast(Ok(OpenCall(IncArgCount(s), t, 0)), false)
    case OpenBracket => SetLast(Ok(OpenArray(s)), false)
    case Comma => SetLast(Ok(Drain(s, 0)), false)
  }

  function Run(s: ParserState, tokens: seq<Token>): Result<ParserState, ParseError>
    decreases |tokens|
  {
    if tokens == [] then Ok(s)
    else
      var r := Step(s, tokens[0]);
      if r.Err? then r else Run(r.value, tokens[1..])
  }

  function Finish(r: Result<ParserState, ParseError>): Result<seq<Item>, ParseError> {
    match r
    case Err(e) => Err(e)
    case Ok(s) =>
      var d := Drain(s, 0);
      if d.operators == [] then Ok(d.output) else Err(InvalidTokenOnStack)
  }

  // The compiled form of a token stream, or the error that rejects it.
  function ParseTokens(tokens: seq<Token>): Result<seq<Item>, ParseError> {
    Finish(Run(Initial, tokens))
  }

  lemma {:induction false} RunConcat(s: ParserState, a: seq<Token>, b: seq<Token>)
    ensures Run(s, a + b) == if Run(s, a).Err? then Run(s, a) else Run(Run(s, a).value, b)
    decreases |a|
  {
    if a == [] {
      assert a + b == b;
    } else {
      assert (a + b)[1..] == a[1..] + b;
      var r := Step(s, a[0]);
      if r.Ok? {
        RunConcat(r.value, a[1..], b);
      }
    }
  }
}
