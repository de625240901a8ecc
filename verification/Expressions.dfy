/** Tokens, postfix items and operators of the configuration expression language. */
module Expressions {
  import Words

  const U32_RANGE: nat := 0x1_0000_0000
  const I32_RANGE: int := 0x8000_0000

  // Reserved function identifiers (u32::MAX and u32::MAX - 1).
  const ARRAY_ACCESS: nat := 0xFFFF_FFFF
  const ARRAY_BUILD: nat := 0xFFFF_FFFE

  type u32 = Words.u32

  // Truncation to 32 bits.
  function Wrap32(n: nat): (r: u32)
    ensures n < U32_RANGE ==> r == n
  {
    n % 0x1_0000_0000
  }

  datatype BinaryOperator =
    | Add | Subtract | Multiply | Divide
    | And | Or | Xor
    | Eq | Ne | Lt | Le | Gt | Ge

  datatype UnaryOperator = Not | Minus

  datatype Constant = IntegerConstant(i: int) | FloatConstant(f: real) | StringConstant(s: string)

  // A compiled regular expression, identified by its pattern text.
  type Regex = string

  datatype Token =
    | Variable(variable: u32)
    | Capture(capture: u32)
    | Function(name: string, id: u32, numArgs: u32)
    | Constant(constant: Constant)
    | Regex(regex: Regex)
    | Binary(bop: BinaryOperator)
    | Unary(uop: UnaryOperator)
    | OpenParen
    | CloseParen
    | OpenBracket
    | CloseBracket
    | Comma

  datatype Item =
    | Variable(variable: u32)
    | Capture(capture: u32)
    | Constant(constant: Constant)
    | Binary(bop: BinaryOperator)
    | Unary(uop: UnaryOperator)
    | Regex(regex: Regex)
    | JmpIf(val: bool, pos: u32)
    | Function(id: u32, numArgs: u32)
    | ArrayAccess
    | ArrayBuild(numItems: u32)

  function Precedence(op: BinaryOperator): (p: int)
    ensures 1 <= p <= 7
  {
    match op
    case Multiply | Divide => 7
    case Add | Subtract => 6
    case Gt | Ge | Lt | Le => 5
    case Eq | Ne => 4
    case Xor => 3
    case And => 2
    case Or => 1
  }

  // The operators compiled with a short-circuit jump.
  predicate IsShortCircuit(op: BinaryOperator) {
    op == And || op == Or
  }
}
