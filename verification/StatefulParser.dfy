/** The parser as the mutable object it is, proved to compute `ParseTokens` and to meet the
    obligations of its indexing, patching and unwrapping on every token stream. */
module StatefulParser {
  import opened Wrappers
  import opened Expressions
  import opened ExpressionParser
  import opened ExpressionJumps

  class Parser {
    var output: seq<Item>
    var operatorStack: seq<Pending>
    var argCount: seq<int>

    var lastIsVarOrFnc: bool

    ghost function State(): (s: ParserState)
      reads this
    {
      ParserState(output, operatorStack, argCount, lastIsVarOrFnc)
    }

    constructor ()
      ensures State() == Initial
    {
      output, operatorStack, argCount, lastIsVarOrFnc := [], [], [], false;
    }

    method CountArgument()
      modifies this
      ensures State() == IncArgCount(old(State()))
    {
      if argCount != [] {
        argCount := argCount[|argCount| - 1 := SaturatingInc(argCount[|argCount| - 1])];
        var pos := if |operatorStack| >= 2 then |operatorStack| - 2 else 0;
        if pos < |operatorStack| && IsArrayBuild(operatorStack[pos].token) {
          var t := operatorStack[pos].token;
          operatorStack := operatorStack[pos := operatorStack[pos].(token := t.(numArgs := Wrap32(t.numArgs + 1)))];
        }
      }
    }

    method UncountArgument()
      modifies this
      ensures State() == DecArgCount(old(State()))
    {
      if argCount != [] {
        argCount := argCount[|argCount| - 1 := SaturatingDec(argCount[|argCount| - 1])];
      }
    }

    /** Patches a pending jump; the position always holds a jump. */
    method UpdateJmpPos(jump: Option<nat>)
      requires jump.Some? ==> jump.value < |output| && output[jump.value].JmpIf?
      modifies this
      ensures output == Patch(old(output), jump)
      ensures State() == old(State()).(output := output)
    {
      if jump.Some? {
        var curPos := |output|;
        output := output[jump.value := JmpIf(output[jump.value].val, Wrap32(curPos - jump.value))];
      }
    }

    method EmitOperator(ghost fed: nat)
      requires ParserInv(State(), fed) && 2 * fed < U32_RANGE
      requires operatorStack != [] && Drainable(operatorStack[|operatorStack| - 1].token, 0)
      modifies this
      ensures State() == EmitTop(old(State()))
      ensures ParserInv(State(), fed)
    {
      EmitTopInv(State(), fed);
      var top := operatorStack[|operatorStack| - 1];
      assert Linked(output, top);
      operatorStack := operatorStack[..|operatorStack| - 1];
      if top.token.Binary? {
        UpdateJmpPos(top.jump);
        output := output + [Item.Binary(top.token.bop)];
      } else {
        output := output + [Item.Unary(top.token.uop)];
      }
    }

    method DrainOperators(minPrecedence: int, ghost fed: nat)
      requires ParserInv(State(), fed) && 2 * fed < U32_RANGE
      modifies this
      ensures State() == Drain(old(State()), minPrecedence)
      ensures ParserInv(State(), fed)
    {
      while operatorStack != [] && Drainable(operatorStack[|operatorStack| - 1].token, minPrecedence)
        invariant ParserInv(State(), fed)
        invariant Drain(State(), minPrecedence) == Drain(old(State()), minPrecedence)
        decreases |operatorStack|
      {
        EmitOperator(fed);
      }
    }

    method CompleteCall(ghost fed: nat) returns (error: Option<ParseError>)
      requires ParserInv(State(), fed)
      modifies this
      ensures match CloseCall(old(State()))
              case Ok(s) => error.None? && State() == s
              case Err(e) => error == Some(e)
    {
      CloseCallInv(State(), fed);
      if operatorStack == [] {
        return None;
      }
      match operatorStack[|operatorStack| - 1].token {
        case Function(name, id, numArgs) =>
          var gotArgs := argCount[|argCount| - 1];
          argCount := argCount[..|argCount| - 1];
          if gotArgs != AsI32(numArgs) {
            return Some(if id != ARRAY_ACCESS then WrongArgumentCount(name, numArgs, gotArgs) else MissingArrayIndex);
          }
          operatorStack := operatorStack[..|operatorStack| - 1];
          output := output + [CallItem(id, numArgs)];
        case Regex(regex) =>
          var gotArgs := argCount[|argCount| - 1];
          argCount := argCount[..|argCount| - 1];
          if gotArgs != 1 {
            return Some(MatchesArity);
          }
          output := output + [Item.Regex(regex)];
          operatorStack := operatorStack[..|operatorStack| - 1];
        case _ =>
      }
      return None;
    }

    method CloseGroup(open: Token, ghost fed: nat) returns (error: Option<ParseError>)
      requires ParserInv(State(), fed) && 2 * fed < U32_RANGE
      requires open.OpenParen? || open.OpenBracket?
      modifies this
      ensures match Close(old(State()), open)
              case Ok(s) => error.None? && State() == s
              case Err(e) => error == Some(e)
    {
      DrainOperators(0, fed);
      if operatorStack == [] || operatorStack[|operatorStack| - 1].token != open {
        return Some(MismatchedParentheses);
      }
      PopDelimiterInv(State(), fed);
      operatorStack := operatorStack[..|operatorStack| - 1];
      error := CompleteCall(fed);
    }

    method AppendOperator(op: BinaryOperator)
      modifies this
      ensures State() == PushBinary(old(State()), op)
    {
      var jump := None;
      if op == And {
        output := output + [JmpIf(false, 0)];
        jump := Some(|output| - 1);
      } else if op == Or {
        output := output + [JmpIf(true, 0)];
        jump := Some(|output| - 1);
      } else {
        assert output + JumpFor(op) == output;
      }
      operatorStack := operatorStack + [Pending(Token.Binary(op), jump)];
    }

    method PushOperator(op: BinaryOperator, ghost fed: nat)
      requires ParserInv(State(), fed) && 2 * fed < U32_RANGE
      modifies this
      ensures State() == PushBinary(Drain(DecArgCount(old(State())), Precedence(op)), op)
    {
      UncountArgument();
      DrainOperators(Precedence(op), fed);
      AppendOperator(op);
    }

    method Consume(t: Token, ghost fed: nat) returns (error: Option<ParseError>)
      requires ParserInv(State(), fed) && 2 * (fed + 1) < U32_RANGE
      modifies this
      ensures match Step(old(State()), t)
              case Ok(s) => error.None? && State() == s
              case Err(e) => error == Some(e)
    {
      error := None;
      var isVarOrFnc := false;
      var last := lastIsVarOrFnc;
      match t {
        case Variable(v) =>
          CountArgument();
          isVarOrFnc := true;
          output := output + [Item.Variable(v)];
        case Constant(c) =>
          CountArgument();
          output := output + [Item.Constant(c)];
        case Capture(c) =>
          CountArgument();
          output := output + [Item.Capture(c)];
        case Unary(_) | OpenParen =>
          operatorStack := operatorStack + [Pending(t, None)];
        case CloseParen =>
          error := CloseGroup(OpenParen, fed);
          isVarOrFnc := true;
        case CloseBracket =>
          error := CloseGroup(OpenBracket, fed);
          isVarOrFnc := true;
        case Binary(op) =>
          PushOperator(op, fed);
        case Function(_, _, _) | Regex(_) =>
          CountArgument();
          argCount := argCount + [0];
          operatorStack := operatorStack + [Pending(t, None)];
        case OpenBracket =>
          if !last {
            CountArgument();
          }
          argCount := argCount + [if last then 1 else 0];
          operatorStack := operatorStack + [Pending(BracketCall(last), None)];
          operatorStack := operatorStack + [Pending(OpenBracket, None)];
        case Comma =>
          DrainOperators(0, fed);
      }
      lastIsVarOrFnc := isVarOrFnc;
    }

    /** Compiles a token stream. */
    method Parse(tokens: seq<Token>) returns (r: Result<seq<Item>, ParseError>)
      requires State() == Initial
      requires 2 * |tokens| < U32_RANGE
      modifies this
      ensures r == ParseTokens(tokens)
    {
      var i := 0;
      while i < |tokens|
        invariant 0 <= i <= |tokens|
        invariant ParserInv(State(), i)
        invariant Run(Initial, tokens) == Run(State(), tokens[i..])
      {
        StepInv(State(), tokens[i], i);
        var error := Consume(tokens[i], i);
        assert tokens[i..][0] == tokens[i] && tokens[i..][1..] == tokens[i + 1..];
        if error.Some? {
          return Err(error.value);
        }
        i := i + 1;
      }
      DrainOperators(0, |tokens|);
      if operatorStack == [] {
        return Ok(output);
      } else {
        return Err(InvalidTokenOnStack);
      }
    }
  }
}
