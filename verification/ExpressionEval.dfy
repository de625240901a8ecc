/** The stack machine that runs compiled expressions, and the meaning of source trees. */
module ExpressionEval {
  import opened Wrappers
  import opened Expressions
  import opened ExpressionParser
  import opened ExpressionTrees
  import opened ExpressionCompiler

  datatype Value = Str(s: string) | Int(i: int) | Float(f: real) | Arr(items: seq<Value>)

  const Default := Str("")

  /** What the machine takes from outside: variables, arithmetic and comparison, functions,
      conversions and the regular-expression engine. */
  datatype Env = Env(
    resolve: u32 -> Value,
    arithmetic: (BinaryOperator, Value, Value) -> Value,
    negate: Value -> Value,
    call: (u32, seq<Value>) -> Value,
    toIndex: Value -> nat,
    toText: Value -> string,
    captures: (Regex, string) -> Option<seq<string>>)

  predicate ToBool(v: Value) {
    match v
    case Float(f) => f != 0.0
    case Int(i) => i != 0
    case Str(s) => s != ""
    case Arr(items) => items != []
  }

  function FromBool(b: bool): Value {
    Int(if b then 1 else 0)
  }

  function ApplyUnary(env: Env, op: UnaryOperator, v: Value): Value {
    match op
    case Not => FromBool(!ToBool(v))
    case Minus => env.negate(v)
  }

  function ApplyBinary(env: Env, op: BinaryOperator, l: Value, r: Value): Value {
    match op
    case And => FromBool(ToBool(l) && ToBool(r))
    case Or => FromBool(ToBool(l) || ToBool(r))
    case Xor => FromBool(ToBool(l) != ToBool(r))
    case _ => env.arithmetic(op, l, r)
  }

  function FromConstant(c: Constant): Value {
    match c
    case IntegerConstant(i) => Int(i)
    case FloatConstant(f) => Float(f)
    case StringConstant(s) => Str(s)
  }

  function IntoArray(v: Value): seq<Value> {
    match v
    case Arr(items) => items
    case Str(s) => if s != "" then [v] else []
    case _ => [v]
  }

  function Nth(items: seq<Value>, i: nat): Value {
    if i < |items| then items[i] else Default
  }

  function CaptureText(captures: seq<string>, c: u32): Value {
    Str(if c < |captures| then captures[c] else "")
  }

  datatype Machine = Machine(stack: seq<Value>, captures: seq<string>)

  function Top(stack: seq<Value>): Value {
    if stack == [] then Default else stack[|stack| - 1]
  }

  function Pop(stack: seq<Value>): seq<Value> {
    if stack == [] then [] else stack[..|stack| - 1]
  }

  function PopMany(stack: seq<Value>, n: nat): (rest: seq<Value>) {
    if n <= |stack| then stack[..|stack| - n] else []
  }

  // The n topmost values in stack order; missing ones are defaults.
  function Arguments(stack: seq<Value>, n: nat): (args: seq<Value>)
    ensures |args| == n
  {
    if n == 0 then [] else Arguments(Pop(stack), n - 1) + [Top(stack)]
  }

  function Apply(env: Env, item: Item, m: Machine): Machine {
    match item
    case Variable(v) => m.(stack := m.stack + [env.resolve(v)])
    case Constant(c) => m.(stack := m.stack + [FromConstant(c)])
    case Capture(c) => m.(stack := m.stack + [CaptureText(m.captures, c)])
    case Unary(op) => m.(stack := Pop(m.stack) + [ApplyUnary(env, op, Top(m.stack))])
    case Binary(op) =>
      var below := Pop(m.stack);
      m.(stack := Pop(below) + [ApplyBinary(env, op, Top(below), Top(m.stack))])
    case Function(id, n) => m.(stack := PopMany(m.stack, n) + [env.call(id, Arguments(m.stack, n))])
    case ArrayAccess =>
      var below := Pop(m.stack);
      m.(stack := Pop(below) + [Nth(IntoArray(Top(below)), env.toIndex(Top(m.stack)))])
    case ArrayBuild(n) => m.(stack := PopMany(m.stack, n) + [Arr(Arguments(m.stack, n))])
    case Regex(regex) =>
      var found := RegexCaptures(env, regex, Top(m.stack));
      Machine(Pop(m.stack) + [FromBool(found != [])], found)
    case JmpIf(_, _) => m
  }

  function RegexCaptures(env: Env, regex: Regex, v: Value): seq<string> {
    var found := env.captures(regex, env.toText(v));
    if found.Some? then found.value else []
  }

  // Running any item sequence, well formed or not.
  function Exec(env: Env, items: seq<Item>, m: Machine): (r: Machine)
    decreases |items|
  {
    if items == [] then m
    else if items[0].JmpIf? && (m.stack != [] && ToBool(Top(m.stack))) == items[0].val then
      Exec(env, Skip(items[1..], items[0].pos), m)
    else Exec(env, items[1..], Apply(env, items[0], m))
  }

  function Skip(items: seq<Item>, n: nat): (rest: seq<Item>)
    ensures |rest| <= |items|
  {
    if n <= |items| then items[n..] else []
  }

  function Outcome(m: Machine): Value {
    Top(m.stack)
  }

  /** The meaning of a tree: operands left to right, captures threaded through, the right operand
      of `&&` and `||` evaluated only when the left does not decide, whose value is then kept. */
  function Meaning(env: Env, e: Expr, captures: seq<string>): (r: (Value, seq<string>))
    decreases e
  {
    match e
    case Var(v) => (env.resolve(v), captures)
    case Const(c) => (FromConstant(c), captures)
    case Group(c) => (CaptureText(captures, c), captures)
    case Un(op, x) =>
      var (v, c) := Meaning(env, x, captures);
      (ApplyUnary(env, op, v), c)
    case Bin(op, l, r) =>
      var (lv, c) := Meaning(env, l, captures);
      if IsShortCircuit(op) && ToBool(lv) == (op == Or) then (lv, c)
      else
        var (rv, c') := Meaning(env, r, c);
        (ApplyBinary(env, op, lv, rv), c')
    case Call(_, id, _, args) =>
      var (vs, c) := MeaningList(env, args, captures);
      (env.call(id, vs), c)
    case Match(regex, x) =>
      var (v, _) := Meaning(env, x, captures);
      var found := RegexCaptures(env, regex, v);
      (FromBool(found != []), found)
    case Array(items) =>
      var (vs, c) := MeaningList(env, items, captures);
      (Arr(vs), c)
    case Index(b, i) =>
      var (bv, c) := Meaning(env, b, captures);
      var (iv, c') := Meaning(env, i, c);
      (Nth(IntoArray(bv), env.toIndex(iv)), c')
  }

  function MeaningList(env: Env, es: seq<Expr>, captures: seq<string>): (r: (seq<Value>, seq<string>))
    ensures |r.0| == |es|
    decreases es
  {
    if es == [] then ([], captures)
    else
      var (v, c) := Meaning(env, es[0], captures);
      var (vs, c') := MeaningList(env, es[1..], c);
      ([v] + vs, c')
  }

  lemma {:induction false} ArgumentsOf(stack: seq<Value>, vs: seq<Value>)
    ensures Arguments(stack + vs, |vs|) == vs
    ensures PopMany(stack + vs, |vs|) == stack
    decreases |vs|
  {
    if vs != [] {
      var n := |vs| - 1;
      assert Pop(stack + vs) == stack + vs[..n];
      ArgumentsOf(stack, vs[..n]);
    }
  }

  lemma ExecStep(env: Env, item: Item, rest: seq<Item>, m: Machine)
    requires !item.JmpIf?
    ensures Exec(env, [item] + rest, m) == Exec(env, rest, Apply(env, item, m))
  {
    assert ([item] + rest)[1..] == rest;
  }

  /** Running the code from m, whatever follows it, is running what follows from m'. */
  ghost predicate Reaches(env: Env, code: seq<Item>, m: Machine, m': Machine) {
    forall rest {:trigger Exec(env, code + rest, m)} :: Exec(env, code + rest, m) == Exec(env, rest, m')
  }

  ghost predicate Pushes(env: Env, code: seq<Item>, m: Machine, vs: seq<Value>, captures: seq<string>) {
    Reaches(env, code, m, Machine(m.stack + vs, captures))
  }

  lemma ReachItem(env: Env, item: Item, m: Machine)
    requires !item.JmpIf?
    ensures Reaches(env, [item], m, Apply(env, item, m))
  {
    forall rest ensures Exec(env, [item] + rest, m) == Exec(env, rest, Apply(env, item, m)) {
      ExecStep(env, item, rest, m);
    }
  }

  lemma ReachBoth(env: Env, a: seq<Item>, b: seq<Item>, m: Machine, m1: Machine, m2: Machine)
    requires Reaches(env, a, m, m1) && Reaches(env, b, m1, m2)
    ensures Reaches(env, a + b, m, m2)
  {
    forall rest ensures Exec(env, a + b + rest, m) == Exec(env, rest, m2) {
      assert a + b + rest == a + (b + rest);
    }
  }

  // A jump that is taken skips the code it spans; one that is not runs it.
  lemma ExecJump(env: Env, val: bool, right: seq<Item>, rest: seq<Item>, m: Machine)
    requires |right| < U32_RANGE && m.stack != []
    ensures Exec(env, [JmpIf(val, |right|)] + right + rest, m)
         == if ToBool(Top(m.stack)) == val then Exec(env, rest, m) else Exec(env, right + rest, m)
  {
    var items := [JmpIf(val, |right|)] + right + rest;
    assert items[0] == JmpIf(val, |right|) && items[1..] == right + rest;
    assert Skip(right + rest, |right|) == rest;
  }

  lemma ReachJump(env: Env, val: bool, right: seq<Item>, m: Machine, m': Machine)
    requires |right| < U32_RANGE && m.stack != []
    requires Reaches(env, right, m, m')
    ensures Reaches(env, [JmpIf(val, |right|)] + right, m, if ToBool(Top(m.stack)) == val then m else m')
  {
    forall rest
      ensures Exec(env, [JmpIf(val, |right|)] + right + rest, m)
           == Exec(env, rest, if ToBool(Top(m.stack)) == val then m else m')
    {
      ExecJump(env, val, right, rest, m);
      assert Exec(env, right + rest, m) == Exec(env, rest, m');
    }
  }

  // An item that turns the values just pushed into one.
  lemma PushOperator(env: Env, code: seq<Item>, item: Item, m: Machine, vs: seq<Value>, c: seq<string>, v: Value, c': seq<string>)
    requires Pushes(env, code, m, vs, c) && !item.JmpIf?
    requires Apply(env, item, Machine(m.stack + vs, c)) == Machine(m.stack + [v], c')
    ensures Pushes(env, code + [item], m, [v], c')
  {
    ReachItem(env, item, Machine(m.stack + vs, c));
    ReachBoth(env, code, [item], m, Machine(m.stack + vs, c), Machine(m.stack + [v], c'));
  }

  lemma PushBoth(env: Env, a: seq<Item>, b: seq<Item>, m: Machine, vs: seq<Value>, c: seq<string>, ws: seq<Value>, c': seq<string>)
    requires Pushes(env, a, m, vs, c) && Pushes(env, b, Machine(m.stack + vs, c), ws, c')
    ensures Pushes(env, a + b, m, vs + ws, c')
  {
    assert m.stack + vs + ws == m.stack + (vs + ws);
    ReachBoth(env, a, b, m, Machine(m.stack + vs, c), Machine(m.stack + (vs + ws), c'));
  }

  lemma ReachRight(env: Env, op: BinaryOperator, cr: seq<Item>, stack: seq<Value>, lv: Value, c: seq<string>, rv: Value, c': seq<string>)
    requires |cr| + 1 < U32_RANGE
    requires Pushes(env, cr, Machine(stack + [lv], c), [rv], c')
    ensures Reaches(env, ShortCircuit(op, |cr|) + (cr + [Item.Binary(op)]), Machine(stack + [lv], c),
                    if IsShortCircuit(op) && ToBool(lv) == (op == Or) then Machine(stack + [lv], c)
                    else Machine(stack + [ApplyBinary(env, op, lv, rv)], c'))
  {
    var m, right := Machine(stack + [lv], c), cr + [Item.Binary(op)];
    var m' := Machine(stack + [ApplyBinary(env, op, lv, rv)], c');
    ReachOperator(env, op, cr, stack, lv, c, rv, c');
    if IsShortCircuit(op) {
      ReachJump(env, op == Or, right, m, m');
      assert ShortCircuit(op, |cr|) == [JmpIf(op == Or, |right|)];
    } else {
      assert ShortCircuit(op, |cr|) + right == right;
    }
  }

  lemma ReachOperator(env: Env, op: BinaryOperator, cr: seq<Item>, stack: seq<Value>, lv: Value, c: seq<string>, rv: Value, c': seq<string>)
    requires Pushes(env, cr, Machine(stack + [lv], c), [rv], c')
    ensures Reaches(env, cr + [Item.Binary(op)], Machine(stack + [lv], c),
                    Machine(stack + [ApplyBinary(env, op, lv, rv)], c'))
  {
    var m := Machine(stack + [lv], c);
    var m1, m2 := Machine(m.stack + [rv], c'), Machine(stack + [ApplyBinary(env, op, lv, rv)], c');
    assert Pop(m1.stack) == m.stack && Pop(m.stack) == stack;
    ReachItem(env, Item.Binary(op), m1);
    ReachBoth(env, cr, [Item.Binary(op)], m, m1, m2);
  }

  lemma PushBinaryCode(env: Env, op: BinaryOperator, cl: seq<Item>, cr: seq<Item>, m: Machine,
                       lv: Value, c: seq<string>, rv: Value, c': seq<string>)
    requires |cr| + 1 < U32_RANGE
    requires Pushes(env, cl, m, [lv], c) && Pushes(env, cr, Machine(m.stack + [lv], c), [rv], c')
    ensures var short := IsShortCircuit(op) && ToBool(lv) == (op == Or);
            Pushes(env, CompileBinary(op, cl, cr), m,
                   [if short then lv else ApplyBinary(env, op, lv, rv)], if short then c else c')
  {
    var short := IsShortCircuit(op) && ToBool(lv) == (op == Or);
    var m' := Machine(m.stack + [if short then lv else ApplyBinary(env, op, lv, rv)], if short then c else c');
    ReachRight(env, op, cr, m.stack, lv, c, rv, c');
    ReachBoth(env, cl, ShortCircuit(op, |cr|) + (cr + [Item.Binary(op)]), m, Machine(m.stack + [lv], c), m');
    assert CompileBinary(op, cl, cr) == cl + (ShortCircuit(op, |cr|) + (cr + [Item.Binary(op)]));
  }

  // The code of a tree pushes its meaning.
  ghost predicate Correct(env: Env, e: Expr, m: Machine) {
    Pushes(env, Compile(e), m, [Meaning(env, e, m.captures).0], Meaning(env, e, m.captures).1)
  }

  /** Running the code of a tree from any stack and captures pushes exactly its meaning. */
  lemma {:induction false} ExecCompile(env: Env, e: Expr, m: Machine)
    requires Accepted(e) && |Compile(e)| < U32_RANGE
    ensures Correct(env, e, m)
    decreases e, 1
  {
    match e
    case Var(_) | Const(_) | Group(_) => ExecLeaf(env, e, m);
    case Un(_, _) => ExecUnary(env, e, m);
    case Bin(_, _, _) => ExecBinary(env, e, m);
    case Call(_, _, _, _) => ExecCall(env, e, m);
    case Match(_, _) => ExecMatch(env, e, m);
    case Array(items) => ExecArray(env, items, m);
    case Index(_, _) => ExecIndex(env, e, m);
  }

  lemma ExecLeaf(env: Env, e: Expr, m: Machine)
    requires e.Var? || e.Const? || e.Group?
    ensures Correct(env, e, m)
  {
    ReachItem(env, Compile(e)[0], m);
  }

  lemma {:induction false} ExecUnary(env: Env, e: Expr, m: Machine)
    requires e.Un? && Accepted(e) && |Compile(e)| < U32_RANGE
    ensures Correct(env, e, m)
    decreases e, 0
  {
    ExecCompile(env, e.operand, m);
    var (v, c) := Meaning(env, e.operand, m.captures);
    assert Pop(m.stack + [v]) == m.stack;
    PushOperator(env, Compile(e.operand), Item.Unary(e.uop), m, [v], c, ApplyUnary(env, e.uop, v), c);
  }

  lemma {:induction false} ExecMatch(env: Env, e: Expr, m: Machine)
    requires e.Match? && Accepted(e) && |Compile(e)| < U32_RANGE
    ensures Correct(env, e, m)
    decreases e, 0
  {
    ExecCompile(env, e.text, m);
    var (v, c) := Meaning(env, e.text, m.captures);
    assert Pop(m.stack + [v]) == m.stack;
    var found := RegexCaptures(env, e.regex, v);
    PushOperator(env, Compile(e.text), Item.Regex(e.regex), m, [v], c, FromBool(found != []), found);
  }

  lemma {:induction false} ExecBinary(env: Env, e: Expr, m: Machine)
    requires e.Bin? && Accepted(e) && |Compile(e)| < U32_RANGE
    ensures Correct(env, e, m)
    decreases e, 0
  {
    var cl, cr := Compile(e.left), Compile(e.right);
    ExecCompile(env, e.left, m);
    var (lv, c) := Meaning(env, e.left, m.captures);
    ExecCompile(env, e.right, Machine(m.stack + [lv], c));
    var (rv, c') := Meaning(env, e.right, c);
    PushBinaryCode(env, e.bop, cl, cr, m, lv, c, rv, c');
  }

  // A call or an array literal takes its items in source order.
  lemma PushItems(env: Env, code: seq<Item>, item: Item, m: Machine, vs: seq<Value>, c: seq<string>)
    requires Pushes(env, code, m, vs, c)
    requires (item.Function? && item.numArgs == |vs|) || (item.ArrayBuild? && item.numItems == |vs|)
    ensures Pushes(env, code + [item], m, [if item.Function? then env.call(item.id, vs) else Arr(vs)], c)
  {
    ArgumentsOf(m.stack, vs);
    PushOperator(env, code, item, m, vs, c, if item.Function? then env.call(item.id, vs) else Arr(vs), c);
  }

  lemma {:induction false} ExecCall(env: Env, e: Expr, m: Machine)
    requires e.Call? && Accepted(e) && |Compile(e)| < U32_RANGE
    ensures Correct(env, e, m)
    decreases e, 0
  {
    ExecList(env, e.args, m);
    var (vs, c) := MeaningList(env, e.args, m.captures);
    PushItems(env, CompileList(e.args), Item.Function(e.id, e.numArgs), m, vs, c);
  }

  lemma {:induction false} ExecArray(env: Env, items: seq<Expr>, m: Machine)
    requires AllAccepted(items) && |CompileList(items)| + 1 < U32_RANGE
    ensures Correct(env, Array(items), m)
    decreases items, 1
  {
    ExecList(env, items, m);
    CompileListItems(items);
    var (vs, c) := MeaningList(env, items, m.captures);
    PushItems(env, CompileList(items), ArrayBuild(|items|), m, vs, c);
  }

  lemma {:induction false} ExecIndex(env: Env, e: Expr, m: Machine)
    requires e.Index? && Accepted(e) && |Compile(e)| < U32_RANGE
    ensures Correct(env, e, m)
    decreases e, 0
  {
    var cb, ci := Compile(e.base), Compile(e.index);
    ExecCompile(env, e.base, m);
    var (bv, c) := Meaning(env, e.base, m.captures);
    ExecCompile(env, e.index, Machine(m.stack + [bv], c));
    var (iv, c') := Meaning(env, e.index, c);
    PushBoth(env, cb, ci, m, [bv], c, [iv], c');
    PushAccess(env, cb + ci, m, bv, iv, c');
  }

  lemma PushAccess(env: Env, code: seq<Item>, m: Machine, bv: Value, iv: Value, c: seq<string>)
    requires Pushes(env, code, m, [bv] + [iv], c)
    ensures Pushes(env, code + [ArrayAccess], m, [Nth(IntoArray(bv), env.toIndex(iv))], c)
  {
    assert Pop(m.stack + ([bv] + [iv])) == m.stack + [bv] && Pop(m.stack + [bv]) == m.stack;
    PushOperator(env, code, ArrayAccess, m, [bv] + [iv], c, Nth(IntoArray(bv), env.toIndex(iv)), c);
  }

  lemma {:induction false} ExecList(env: Env, es: seq<Expr>, m: Machine)
    requires AllAccepted(es) && |CompileList(es)| < U32_RANGE
    ensures Pushes(env, CompileList(es), m, MeaningList(env, es, m.captures).0, MeaningList(env, es, m.captures).1)
    decreases es, 0
  {
    if es == [] {
      forall rest ensures Exec(env, [] + rest, m) == Exec(env, rest, Machine(m.stack + [], m.captures)) {
        assert [] + rest == rest && m.stack + [] == m.stack;
      }
    } else {
      var (v, c) := Meaning(env, es[0], m.captures);
      var (vs, c') := MeaningList(env, es[1..], c);
      ExecCompile(env, es[0], m);
      ExecList(env, es[1..], Machine(m.stack + [v], c));
      PushBoth(env, Compile(es[0]), CompileList(es[1..]), m, [v], c, vs, c');
    }
  }

  lemma {:induction false} CompileListItems(es: seq<Expr>)
    ensures |es| <= |CompileList(es)|
    decreases es
  {
    if es != [] {
      CompileLength(es[0]);
      CompileListItems(es[1..]);
    }
  }

  /** Compiling a printed tree and running the code gives the meaning of the tree. */
  lemma SemanticPreservation(env: Env, e: Expr, captures: seq<string>)
    requires Accepted(e) && |Print(e)| < I32_RANGE
    ensures var code := ParseTokens(Print(e));
            && code.Ok?
            && var m := Exec(env, code.value, Machine([], captures));
               && m.stack == [Meaning(env, e, captures).0]
               && m.captures == Meaning(env, e, captures).1
  {
    CompilesExactly(e);
    CompileLength(e);
    ExecCompile(env, e, Machine([], captures));
    assert Compile(e) + [] == Compile(e);
  }

  /** The evaluation loop, on any item sequence; `captures` is read and updated. */
  method Eval(env: Env, items: seq<Item>, captures: seq<string>) returns (v: Value, captures': seq<string>)
    ensures v == Outcome(Exec(env, items, Machine([], captures)))
    ensures captures' == Exec(env, items, Machine([], captures)).captures
  {
    var stack: seq<Value> := [];
    var exprs := items;
    captures' := captures;
    while exprs != []
      invariant Exec(env, items, Machine([], captures)) == Exec(env, exprs, Machine(stack, captures'))
      decreases |exprs|
    {
      var expr := exprs[0];
      exprs := exprs[1..];
      if expr.JmpIf? {
        if (stack != [] && ToBool(stack[|stack| - 1])) == expr.val {
          exprs := SkipItems(exprs, expr.pos);
        }
      } else {
        stack, captures' := EvalItem(env, expr, stack, captures');
      }
    }
    v := Top(stack);
  }

  method EvalItem(env: Env, item: Item, s: seq<Value>, captures: seq<string>) returns (stack: seq<Value>, captures': seq<string>)
    requires !item.JmpIf?
    ensures Machine(stack, captures') == Apply(env, item, Machine(s, captures))
  {
    stack, captures' := s, captures;
    match item {
      case Variable(v) => stack := stack + [env.resolve(v)];
      case Constant(c) => stack := stack + [FromConstant(c)];
      case Capture(c) => stack := stack + [CaptureText(captures', c)];
      case Unary(op) =>
        var value := Top(stack);
        stack := Pop(stack) + [ApplyUnary(env, op, value)];
      case Binary(op) =>
        var right := Top(stack);
        stack := Pop(stack);
        var left := Top(stack);
        stack := Pop(stack) + [ApplyBinary(env, op, left, right)];
      case Function(id, numArgs) =>
        var arguments;
        arguments, stack := PopArguments(stack, numArgs);
        stack := stack + [env.call(id, arguments)];
      case ArrayAccess =>
        var index := env.toIndex(Top(stack));
        stack := Pop(stack);
        var items := IntoArray(Top(stack));
        stack := Pop(stack) + [Nth(items, index)];
      case ArrayBuild(numItems) =>
        var arguments;
        arguments, stack := PopArguments(stack, numItems);
        stack := stack + [Arr(arguments)];
      case Regex(regex) =>
        captures' := [];
        var value := Top(stack);
        stack := Pop(stack);
        var found := env.captures(regex, env.toText(value));
        if found.Some? {
          captures' := found.value;
        }
        stack := stack + [FromBool(captures' != [])];
    }
  }

  method SkipItems(items: seq<Item>, n: nat) returns (rest: seq<Item>)
    ensures rest == Skip(items, n)
  {
    rest := items;
    for i := 0 to n
      invariant rest == Skip(items, i)
    {
      if rest != [] {
        rest := rest[1..];
      }
    }
  }

  // Fills the argument vector from its last slot down.
  method PopArguments(stack: seq<Value>, n: nat) returns (arguments: seq<Value>, rest: seq<Value>)
    ensures arguments == Arguments(stack, n)
    ensures rest == PopMany(stack, n)
  {
    arguments := seq(n, i => Int(0));
    rest := stack;
    for argNum := 0 to n
      invariant |arguments| == n
      invariant rest == PopMany(stack, argNum)
      invariant Arguments(stack, n) == Arguments(rest, n - argNum) + arguments[n - argNum..]
    {
      arguments := arguments[n - argNum - 1 := Top(rest)];
      rest := Pop(rest);
    }
  }
}
