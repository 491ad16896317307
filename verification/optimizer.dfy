/** The single bottom-up rewriting pass of `src/optimizer.cpp`.

    Each C++ member function is a pure function here. What the C++ code writes to standard
    output for `console.log` is returned as text next to the rewritten node, the function
    registry (`functionMap`) is a map threaded through `OptimizeDeclaration`, and the one
    exception that escapes the pass, "Division by zero", is an `Err`. */
module Optimizer {
  import opened Wrappers
  import opened Ast
  import opened Host

  /** `functionMap`: function name to the optimized copy of its declaration. */
  type Registry = map<string, Node>

  /** A rewritten slot and the text written to standard output while rewriting it. */
  datatype Optimized = Optimized(node: Option<Node>, output: string)

  /** Rewritten slots of a vector (call arguments or a function body) and the text written. */
  datatype OptimizedList = OptimizedList(nodes: seq<Option<Node>>, output: string)

  /** A rewritten declaration, the registry after it, and the text written. */
  datatype Declared = Declared(node: Option<Node>, registry: Registry, output: string)

  const DivisionByZero: string := "Division by zero"

  const Comparisons: set<string> := {"<", ">", "<=", ">=", "==", "!="}

  // ---------------------------------------------------------------------------------------
  // Literal helpers: isTruthy and toString
  // ---------------------------------------------------------------------------------------

  /** `isTruthy`: booleans are themselves, numbers are truthy unless zero, strings unless empty. */
  function Truthy(v: Value): (t: bool)
    ensures !t <==> v in {Bool(false), Number(0.0), Str("")}
  {
    match v
    case Bool(b) => b
    case Number(x) => x != 0.0
    case Str(s) => s != ""
  }

  /** `toString`: the text a literal contributes to a string concatenation. */
  function ToText(v: Value, lib: Lib): (r: string)
    // it spells strings and booleans as `console.log` does; only numbers differ
    ensures !v.Number? ==> r == LogText(v, lib)
    ensures v.Bool? ==> (r == "true" <==> v.b)
  {
    match v
    case Str(s) => s
    case Number(x) => lib.toString(x)
    case Bool(b) => if b then "true" else "false"
  }

  /** The text `console.log` writes for one literal argument: the stream form of a number,
      and booleans spelled out. */
  function LogText(v: Value, lib: Lib): string {
    match v
    case Str(s) => s
    case Number(x) => lib.stream(x)
    case Bool(b) => if b then "true" else "false"
  }

  // ---------------------------------------------------------------------------------------
  // optimizeUnary
  // ---------------------------------------------------------------------------------------

  /** The value `optimizeUnary` stores in the fresh literal that replaces `op v`. */
  function UnaryValue(op: string, v: Value, lib: Lib): Value {
    if op == "!" then Bool(!Truthy(v))
    else if op == "-" then (if v.Number? then Number(-v.n) else Fresh)
    else if op == "+" then
      (if v.Number? then v else if v.Str? then Number(lib.stod(v.s)) else Fresh)
    else Fresh
  }

  /** Whether a unary `op` applied to a unary `inner` collapses to the inner operand. */
  predicate Collapses(op: string, inner: string) {
    (op == "!" && inner == "!") || (op == "-" && inner == "-")
  }

  /** `optimizeUnary` on a unary node whose operand has already been optimized. */
  function OptimizeUnary(op: string, arg: Option<Node>, lib: Lib): (r: Option<Node>)
    // over a literal, the node always becomes a literal
    ensures IsLiteral(arg) ==> IsLiteral(r)
    ensures IsLiteral(arg) && op == "!" ==> r == Some(Literal(Bool(!Truthy(arg.value.value))))
    ensures IsLiteral(arg) && op == "-" && arg.value.value.Number? ==>
      r == Some(Literal(Number(-arg.value.value.n)))
    ensures IsLiteral(arg) && op == "+" && arg.value.value.Number? ==> r == arg
    ensures IsLiteral(arg) && op == "+" && arg.value.value.Str? ==>
      r == Some(Literal(Number(lib.stod(arg.value.value.s))))
    // every other operator/kind pair gives the fresh literal's 0
    ensures (IsLiteral(arg) && op != "!" && !(op in {"-", "+"} && arg.value.value.Number?)
             && !(op == "+" && arg.value.value.Str?)) ==> r == Some(Literal(Fresh))
    // `!!x` and `--x` collapse to `x`; every other unary over a unary is kept
    ensures arg.Some? && arg.value.UnaryExpression? && Collapses(op, arg.value.op) ==>
      r == arg.value.argument
    ensures arg.Some? && arg.value.UnaryExpression? && !Collapses(op, arg.value.op) ==>
      r == Some(UnaryExpression(op, arg))
    // over anything else the node is kept
    ensures !IsLiteral(arg) && !(arg.Some? && arg.value.UnaryExpression?) ==>
      r == Some(UnaryExpression(op, arg))
  {
    match arg
    case Some(Literal(v)) => Some(Literal(UnaryValue(op, v, lib)))
    case Some(UnaryExpression(inner, operand)) =>
      if Collapses(op, inner) then operand else Some(UnaryExpression(op, arg))
    case _ => Some(UnaryExpression(op, arg))
  }

  // ---------------------------------------------------------------------------------------
  // constantFolding
  // ---------------------------------------------------------------------------------------

  /** The value that `constantFolding` stores for two literal operands, or the one error. */
  function FoldValues(op: string, a: Value, b: Value, lib: Lib): (r: Result<Value>)
    // division by a literal zero is the only failure
    ensures r.Err? <==> a.Number? && b.Number? && op == "/" && b.n == 0.0
    ensures r.Err? ==> r.error == DivisionByZero
    // number/number arithmetic
    ensures a.Number? && b.Number? && op == "+" ==> r.Ok? && r.value == Number(a.n + b.n)
    ensures a.Number? && b.Number? && op == "-" ==> r.Ok? && r.value == Number(a.n - b.n)
    ensures a.Number? && b.Number? && op == "*" ==> r.Ok? && r.value == Number(a.n * b.n)
    ensures a.Number? && b.Number? && op == "/" && b.n != 0.0 ==> r.Ok? && r.value == Number(a.n / b.n)
    ensures a.Number? && b.Number? && op == "**" ==> r.Ok? && r.value == Number(lib.pow(a.n, b.n))
    // number/number comparisons
    ensures a.Number? && b.Number? && op == "<" ==> r.Ok? && r.value == Bool(a.n < b.n)
    ensures a.Number? && b.Number? && op == ">" ==> r.Ok? && r.value == Bool(a.n > b.n)
    ensures a.Number? && b.Number? && op == "<=" ==> r.Ok? && r.value == Bool(a.n <= b.n)
    ensures a.Number? && b.Number? && op == ">=" ==> r.Ok? && r.value == Bool(a.n >= b.n)
    ensures a.Number? && b.Number? && op == "==" ==> r.Ok? && r.value == Bool(a.n == b.n)
    ensures a.Number? && b.Number? && op == "!=" ==> r.Ok? && r.value == Bool(a.n != b.n)
    // logic on the truthiness of operands that are not both numbers
    ensures !(a.Number? && b.Number?) && op == "&&" ==> r.Ok? && r.value == Bool(Truthy(a) && Truthy(b))
    ensures !(a.Number? && b.Number?) && op == "||" ==> r.Ok? && r.value == Bool(Truthy(a) || Truthy(b))
    // a string on either side of `+` concatenates the texts of both sides
    ensures r.Ok? && r.value.Str? <==> op == "+" && (a.Str? || b.Str?)
    ensures r.Ok? && r.value.Str? ==> r.value.s == ToText(a, lib) + ToText(b, lib)
    // a boolean comes only from a number comparison or from `&&`/`||` on other kinds
    ensures r.Ok? && r.value.Bool? <==>
      if a.Number? && b.Number? then op in Comparisons else op in {"&&", "||"}
    // every pair no rule matches yields the fresh literal's 0
    ensures r.Ok? && r.value.Number? && !(a.Number? && b.Number? && op in {"+", "-", "*", "/", "**"})
      ==> r.value == Fresh
  {
    if a.Number? && b.Number? then
      if op == "+" then Ok(Number(a.n + b.n))
      else if op == "-" then Ok(Number(a.n - b.n))
      else if op == "*" then Ok(Number(a.n * b.n))
      else if op == "/" then (if b.n == 0.0 then Err(DivisionByZero) else Ok(Number(a.n / b.n)))
      else if op == "**" then Ok(Number(lib.pow(a.n, b.n)))
      else if op == "<" then Ok(Bool(a.n < b.n))
      else if op == ">" then Ok(Bool(a.n > b.n))
      else if op == "<=" then Ok(Bool(a.n <= b.n))
      else if op == ">=" then Ok(Bool(a.n >= b.n))
      else if op == "==" then Ok(Bool(a.n == b.n))
      else if op == "!=" then Ok(Bool(a.n != b.n))
      else Ok(Fresh)
    else if op == "&&" then Ok(Bool(Truthy(a) && Truthy(b)))
    else if op == "||" then Ok(Bool(Truthy(a) || Truthy(b)))
    else if op == "+" && (a.Str? || b.Str?) then Ok(Str(ToText(a, lib) + ToText(b, lib)))
    else Ok(Fresh)
  }

  /** `constantFolding` on a binary node whose operands have already been optimized. */
  function ConstantFolding(op: string, left: Option<Node>, right: Option<Node>, lib: Lib): (r: Result<Node>)
    ensures IsLiteral(left) && IsLiteral(right) ==> r.Err? || r.value.Literal?
    ensures r.Err? <==> (IsLiteral(left) && IsLiteral(right) && left.value.value.Number?
                         && op == "/" && right.value.value == Number(0.0))
    ensures !(IsLiteral(left) && IsLiteral(right)) ==> r == Ok(BinaryExpression(op, left, right))
  {
    if IsLiteral(left) && IsLiteral(right) then
      var v :- FoldValues(op, left.value.value, right.value.value, lib);
      Ok(Literal(v))
    else
      Ok(BinaryExpression(op, left, right))
  }

  // ---------------------------------------------------------------------------------------
  // deadCodeElimination
  // ---------------------------------------------------------------------------------------

  /** `deadCodeElimination`: algebraic rules that fire when one operand of a binary is a
      literal. The replacement is an operand, a fresh literal, or the node itself. */
  function DeadCodeElimination(n: Node): (r: Option<Node>)
    ensures !n.BinaryExpression? ==> r == Some(n)
    ensures n.BinaryExpression? ==>
      r in {Some(n), n.left, n.right, Some(Literal(Number(0.0))), Some(Literal(Number(1.0))),
            Some(Literal(Bool(false))), Some(Literal(Bool(true)))}
    // with exactly one literal operand, the rules of the algebra
    ensures n.BinaryExpression? && !(IsLiteral(n.left) && IsLiteral(n.right)) ==>
      var BinaryExpression(op, x, y) := n;
      && (op == "*" && (NumberOf(x) == Some(0.0) || NumberOf(y) == Some(0.0)) ==>
            r == Some(Literal(Number(0.0))))
      && (op == "*" && NumberOf(x) == Some(1.0) ==> r == y)
      && (op == "*" && NumberOf(y) == Some(1.0) ==> r == x)
      && (op == "/" && NumberOf(y) == Some(1.0) ==> r == x)
      && (op == "**" && (NumberOf(y) == Some(0.0) || NumberOf(x) == Some(1.0)) ==>
            r == Some(Literal(Number(1.0))))
      && (op == "**" && NumberOf(y) == Some(1.0) ==> r == x)
      && (op == "+" && NumberOf(x) == Some(0.0) ==> r == y)
      && (op in {"+", "-"} && NumberOf(y) == Some(0.0) ==> r == x)
      && ((op == "&&" && ((IsLiteral(x) && !Truthy(x.value.value)) || (IsLiteral(y) && !Truthy(y.value.value))))
            ==> r == Some(Literal(Bool(false))))
      && ((op == "||" && ((IsLiteral(x) && Truthy(x.value.value)) || (IsLiteral(y) && Truthy(y.value.value))))
            ==> r == Some(Literal(Bool(true))))
    // arithmetic rules need a numeric literal, and `0 - x` is kept
    ensures (n.BinaryExpression? && n.op in {"*", "/", "**", "+", "-"}
             && NumberOf(n.left).None? && NumberOf(n.right).None?) ==> r == Some(n)
    ensures (n.BinaryExpression? && n.op == "-" && NumberOf(n.left) == Some(0.0)
             && !IsLiteral(n.right)) ==> r == Some(n)
    // `&&` and `||` rewrite only to the constant they short-circuit to
    ensures n.BinaryExpression? && n.op == "&&" ==> r in {Some(n), Some(Literal(Bool(false)))}
    ensures n.BinaryExpression? && n.op == "||" ==> r in {Some(n), Some(Literal(Bool(true)))}
    // no other operator is touched
    ensures n.BinaryExpression? && !(n.op in {"*", "/", "**", "+", "-", "&&", "||"}) ==> r == Some(n)
  {
    match n
    case BinaryExpression(op, left, right) =>
      var ln, rn := NumberOf(left), NumberOf(right);
      if op == "*" then
        if ln == Some(1.0) then right
        else if rn == Some(1.0) then left
        else if ln == Some(0.0) || rn == Some(0.0) then Some(Literal(Number(0.0)))
        else Some(n)
      else if op == "/" then
        if rn == Some(1.0) then left else Some(n)
      else if op == "**" then
        if rn == Some(0.0) then Some(Literal(Number(1.0)))
        else if rn == Some(1.0) then left
        else if ln == Some(1.0) then Some(Literal(Number(1.0)))
        else Some(n)
      else if op == "+" || op == "-" then
        if ln == Some(0.0) && op == "+" then right
        else if rn == Some(0.0) then left
        else Some(n)
      else if op == "&&" then
        if IsLiteral(left) && !Truthy(left.value.value) then Some(Literal(Bool(false)))
        else if IsLiteral(right) && !Truthy(right.value.value) then Some(Literal(Bool(false)))
        else Some(n)
      else if op == "||" then
        if IsLiteral(left) && Truthy(left.value.value) then Some(Literal(Bool(true)))
        else if IsLiteral(right) && Truthy(right.value.value) then Some(Literal(Bool(true)))
        else Some(n)
      else Some(n)
    case _ => Some(n)
  }

  // ---------------------------------------------------------------------------------------
  // optimizeExpression
  // ---------------------------------------------------------------------------------------

  /** The callee shape `console.log` that the optimizer evaluates at compile time. */
  predicate IsConsoleLog(callee: Option<Node>) {
    callee == Some(MemberExpression(Some(Identifier("console")), "log"))
  }

  /** Nodes `optimizeExpression` returns as they are: everything but unary, binary and call. */
  predicate Inert(n: Node) {
    !(n.UnaryExpression? || n.BinaryExpression? || n.CallExpression?)
  }

  /** `optimizeExpression`: optimize the children, then apply the node's own rules. */
  function OptimizeExpression(n: Option<Node>, lib: Lib): (r: Result<Optimized>)
    decreases n, 0
    // the only error that escapes is the division by zero
    ensures r.Err? ==> r.error == DivisionByZero
    // null goes to null; literals, identifiers, members and statements pass through silently
    ensures n.None? ==> r == Ok(Optimized(None, ""))
    ensures n.Some? && Inert(n.value) ==> r == Ok(Optimized(n, ""))
    // a call stays a call with as many argument slots: nothing is inlined here
    ensures r.Ok? && n.Some? && n.value.CallExpression? ==>
      r.value.node.Some? && r.value.node.value.CallExpression?
      && |r.value.node.value.arguments| == |n.value.arguments|
    // an ordinary call gets the optimized callee and the optimized arguments
    ensures r.Ok? && n.Some? && n.value.CallExpression? && !IsConsoleLog(n.value.callee) ==>
      && OptimizeExpression(n.value.callee, lib).Ok?
      && OptimizeArguments(n.value, 0, lib).Ok?
      && r.value.node == Some(CallExpression(OptimizeExpression(n.value.callee, lib).value.node,
                                             OptimizeArguments(n.value, 0, lib).value.nodes))
  {
    match n
    case None => Ok(Optimized(None, ""))
    case Some(node) =>
      match node
      case UnaryExpression(op, arg) =>
        var a :- OptimizeExpression(arg, lib);
        Ok(Optimized(OptimizeUnary(op, a.node, lib), a.output))
      case BinaryExpression(op, left, right) =>
        var l :- OptimizeExpression(left, lib);
        var rt :- OptimizeExpression(right, lib);
        var folded :- ConstantFolding(op, l.node, rt.node, lib);
        Ok(Optimized(DeadCodeElimination(folded), l.output + rt.output))
      case CallExpression(callee, args) =>
        if IsConsoleLog(callee) then
          var text :- LogArguments(node, 0, lib);
          Ok(Optimized(Some(CallExpression(callee, Emptied(|args|))), text + "\n"))
        else
          var c :- OptimizeExpression(callee, lib);
          var rest :- OptimizeArguments(node, 0, lib);
          Ok(Optimized(Some(CallExpression(c.node, rest.nodes)), c.output + rest.output))
      case _ => Ok(Optimized(n, ""))
  }

  /** The text the `console.log` loop writes for the arguments from index `i` on: whatever
      optimizing each argument writes, then, for an argument that became a literal, its
      text, preceded by a space unless it is the first argument. */
  function LogArguments(call: Node, i: nat, lib: Lib): (r: Result<string>)
    requires call.CallExpression? && i <= |call.arguments|
    decreases call, |call.arguments| - i
    ensures r.Err? ==> r.error == DivisionByZero
  {
    if i == |call.arguments| then Ok("")
    else
      assert call.arguments[i] in call.arguments;
      var a :- OptimizeExpression(call.arguments[i], lib);
      var printed :=
        if IsLiteral(a.node) then (if i > 0 then " " else "") + LogText(a.node.value.value, lib)
        else "";
      var rest :- LogArguments(call, i + 1, lib);
      Ok(a.output + printed + rest)
  }

  /** The arguments of an ordinary call from index `i` on, each optimized in order. */
  function OptimizeArguments(call: Node, i: nat, lib: Lib): (r: Result<OptimizedList>)
    requires call.CallExpression? && i <= |call.arguments|
    decreases call, |call.arguments| - i
    ensures r.Err? ==> r.error == DivisionByZero
    ensures r.Ok? ==> |r.value.nodes| == |call.arguments| - i
    ensures r.Ok? ==> forall j :: i <= j < |call.arguments| ==>
      (OptimizeExpression(call.arguments[j], lib).Ok?
       && r.value.nodes[j - i] == OptimizeExpression(call.arguments[j], lib).value.node)
  {
    if i == |call.arguments| then Ok(OptimizedList([], ""))
    else
      assert call.arguments[i] in call.arguments;
      var a :- OptimizeExpression(call.arguments[i], lib);
      var rest :- OptimizeArguments(call, i + 1, lib);
      var nodes := [a.node] + rest.nodes;
      assert forall j :: i <= j < |call.arguments| ==>
        (OptimizeExpression(call.arguments[j], lib).Ok?
         && nodes[j - i] == OptimizeExpression(call.arguments[j], lib).value.node) by {
        forall j | i < j < |call.arguments|
          ensures OptimizeExpression(call.arguments[j], lib).Ok?
          ensures nodes[j - i] == OptimizeExpression(call.arguments[j], lib).value.node
        {
          assert nodes[j - i] == rest.nodes[j - (i + 1)];
        }
      }
      Ok(OptimizedList(nodes, a.output + rest.output))
  }

  // ---------------------------------------------------------------------------------------
  // optimizeStatement and optimizeDeclaration
  // ---------------------------------------------------------------------------------------

  /** `optimizeStatement`: only the argument of a return statement is rewritten. */
  function OptimizeStatement(n: Option<Node>, lib: Lib): (r: Result<Optimized>)
    ensures r.Err? ==> r.error == DivisionByZero
    ensures !(n.Some? && n.value.ReturnStatement?) ==> r == Ok(Optimized(n, ""))
    ensures n.Some? && n.value.ReturnStatement? ==>
      match OptimizeExpression(n.value.argument, lib)
      case Ok(a) => r == Ok(Optimized(Some(ReturnStatement(a.node)), a.output))
      case Err(e) => r == Err(e)
  {
    match n
    case Some(ReturnStatement(arg)) =>
      var a :- OptimizeExpression(arg, lib);
      Ok(Optimized(Some(ReturnStatement(a.node)), a.output))
    case _ => Ok(Optimized(n, ""))
  }

  /** The body statements of a function declaration from index `i` on, each optimized. */
  function OptimizeBody(decl: Node, i: nat, lib: Lib): (r: Result<OptimizedList>)
    requires decl.FunctionDeclaration? && i <= |decl.body|
    decreases |decl.body| - i
    ensures r.Err? ==> r.error == DivisionByZero
    ensures r.Ok? ==> |r.value.nodes| == |decl.body| - i
    ensures r.Ok? ==> forall j :: i <= j < |decl.body| ==>
      (OptimizeStatement(decl.body[j], lib).Ok?
       && r.value.nodes[j - i] == OptimizeStatement(decl.body[j], lib).value.node)
  {
    if i == |decl.body| then Ok(OptimizedList([], ""))
    else
      var s :- OptimizeStatement(decl.body[i], lib);
      var rest :- OptimizeBody(decl, i + 1, lib);
      var nodes := [s.node] + rest.nodes;
      assert forall j :: i <= j < |decl.body| ==>
        (OptimizeStatement(decl.body[j], lib).Ok?
         && nodes[j - i] == OptimizeStatement(decl.body[j], lib).value.node) by {
        forall j | i < j < |decl.body|
          ensures OptimizeStatement(decl.body[j], lib).Ok?
          ensures nodes[j - i] == OptimizeStatement(decl.body[j], lib).value.node
        {
          assert nodes[j - i] == rest.nodes[j - (i + 1)];
        }
      }
      Ok(OptimizedList(nodes, s.output + rest.output))
  }

  /** Every entry of the registry is a function declaration filed under its own name. */
  predicate RegistryWellFormed(reg: Registry) {
    forall f :: f in reg ==> reg[f].FunctionDeclaration? && reg[f].name == f
  }

  /** `optimizeDeclaration`: rewrite a variable's initializer, or register an optimized copy of
      a function declaration and return the original with its body slots moved out. */
  function OptimizeDeclaration(reg: Registry, n: Option<Node>, lib: Lib): (r: Result<Declared>)
    ensures r.Err? ==> r.error == DivisionByZero
    // the registry changes only by filing a function under its name
    ensures r.Ok? && !(n.Some? && n.value.FunctionDeclaration?) ==> r.value.registry == reg
    ensures r.Ok? && RegistryWellFormed(reg) ==> RegistryWellFormed(r.value.registry)
    // anything that is not a declaration passes through silently
    ensures !(n.Some? && (n.value.VariableDeclaration? || n.value.FunctionDeclaration?)) ==>
      r == Ok(Declared(n, reg, ""))
    // a variable declaration keeps its name and gets the optimized initializer
    ensures n.Some? && n.value.VariableDeclaration? ==>
      match OptimizeExpression(n.value.init, lib)
      case Ok(a) => r == Ok(Declared(Some(VariableDeclaration(n.value.name, a.node)), reg, a.output))
      case Err(e) => r == Err(e)
    // a function declaration: the registered copy has the optimized body, the last write
    // wins, and the returned original has every body slot emptied
    ensures r.Ok? && n.Some? && n.value.FunctionDeclaration? ==>
      var FunctionDeclaration(name, params, body) := n.value;
      && r.value.registry.Keys == reg.Keys + {name}
      && var copy := r.value.registry[name];
      && (forall f :: f in reg && f != name ==> r.value.registry[f] == reg[f])
      && copy.FunctionDeclaration? && copy.name == name && copy.params == params
      && |copy.body| == |body|
      && (forall k :: 0 <= k < |body| ==>
            (OptimizeStatement(body[k], lib).Ok? && copy.body[k] == OptimizeStatement(body[k], lib).value.node))
      && r.value.node == Some(FunctionDeclaration(name, params, Emptied(|body|)))
  {
    match n
    case Some(VariableDeclaration(name, init)) =>
      var a :- OptimizeExpression(init, lib);
      Ok(Declared(Some(VariableDeclaration(name, a.node)), reg, a.output))
    case Some(FunctionDeclaration(name, params, body)) =>
      var b :- OptimizeBody(n.value, 0, lib);
      var copy := FunctionDeclaration(name, params, b.nodes);
      Ok(Declared(Some(FunctionDeclaration(name, params, Emptied(|body|))), reg[name := copy], b.output))
    case _ => Ok(Declared(n, reg, ""))
  }

  // ---------------------------------------------------------------------------------------
  // inlineSimpleFunctions
  // ---------------------------------------------------------------------------------------

  /** The literal a registered function always returns: its body is exactly one return
      statement whose argument is a literal. */
  function ConstantReturn(reg: Registry, f: string): (r: Option<Value>)
    ensures r.Some? <==> (f in reg && reg[f].FunctionDeclaration? && |reg[f].body| == 1
                          && reg[f].body[0].Some? && reg[f].body[0].value.ReturnStatement?
                          && IsLiteral(reg[f].body[0].value.argument))
    ensures r.Some? ==> reg[f].body == [Some(ReturnStatement(Some(Literal(r.value))))]
  {
    if f in reg && reg[f].FunctionDeclaration? && |reg[f].body| == 1 then
      match reg[f].body[0]
      case Some(ReturnStatement(Some(Literal(v)))) => Some(v)
      case _ => None
    else None
  }

  /** `inlineSimpleFunctions`: a call to a registered function that returns a constant is
      replaced by a copy of that constant; the call's arguments are discarded. */
  function InlineSimpleFunctions(reg: Registry, n: Option<Node>): (r: Option<Node>)
    ensures r != n <==> (n.Some? && n.value.CallExpression? && n.value.callee.Some?
                         && n.value.callee.value.Identifier?
                         && ConstantReturn(reg, n.value.callee.value.name).Some?)
    ensures r != n ==> r == Some(Literal(ConstantReturn(reg, n.value.callee.value.name).value))
  {
    if n.Some? && n.value.CallExpression? && n.value.callee.Some? && n.value.callee.value.Identifier? then
      match ConstantReturn(reg, n.value.callee.value.name)
      case Some(v) => Some(Literal(v))
      case None => n
    else n
  }
}
