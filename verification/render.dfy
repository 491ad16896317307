/** The `print(indent)` members of the node classes (`include/ast.hpp`): each node writes
    one header line at its own indentation, then its children one level deeper.

    The output is modelled as the sequence of lines written, each a `Line` that records its
    indentation level apart from its text; `Layout` is the characters the stream receives
    for it before `std::endl`. How a double is written is the host's `stream` routine. */
module Render {
  import opened Wrappers
  import opened Ast
  import opened Host

  /** Two spaces per level. */
  function Indent(level: nat): (r: string)
    ensures |r| == 2 * level
    ensures forall k :: 0 <= k < |r| ==> r[k] == ' '
  {
    seq(2 * level, _ => ' ')
  }

  /** One line of output: its indentation level and what follows the indentation. */
  datatype Line = Line(level: nat, text: string)

  /** The characters written for a line, without the end of line. */
  function Layout(l: Line): (r: string)
    ensures Indent(l.level) <= r && r[2 * l.level..] == l.text
  {
    Indent(l.level) + l.text
  }

  /** A function's parameters are written with the declaration's indentation followed by
      two spaces: exactly the layout of a line one level deeper. */
  lemma ParamLayout(level: nat, param: string)
    ensures Layout(Line(level + 1, param)) == Indent(level) + "  " + param
  {
    assert Indent(level) + "  " == Indent(level + 1);
  }

  /** A literal's payload as the stream writes it: a bool without `boolalpha` is `1` or `0`. */
  function LiteralText(v: Value, lib: Lib): string {
    match v
    case Number(x) => lib.stream(x)
    case Str(s) => s
    case Bool(b) => if b then "1" else "0"
  }

  /** The text after the indentation on a node's first line. */
  function Header(n: Node, lib: Lib): string {
    match n
    case Base(_) => "ASTNode"
    case Literal(v) => "Literal: " + LiteralText(v, lib)
    case Identifier(name) => "Identifier: " + name
    case UnaryExpression(op, _) => "UnaryExpression: " + op
    case BinaryExpression(op, _, _) => "BinaryExpression: " + op
    case CallExpression(_, _) => "CallExpression"
    case MemberExpression(_, property) => "MemberExpression: " + property
    case ReturnStatement(_) => "ReturnStatement"
    case VariableDeclaration(name, _) => "VariableDeclaration: " + name
    case FunctionDeclaration(name, _, _) => "FunctionDeclaration: " + name
  }

  /** The renderers skip an empty single child but dereference every entry of a call's
      argument list and of a function's body without a check: those must be present. */
  predicate Renderable(n: Option<Node>)
    decreases n
  {
    match n
    case None => true
    case Some(node) =>
      match node
      case UnaryExpression(_, a) => Renderable(a)
      case BinaryExpression(_, l, r) => Renderable(l) && Renderable(r)
      case CallExpression(c, args) =>
        Renderable(c) && forall i :: 0 <= i < |args| ==> args[i].Some? && Renderable(args[i])
      case MemberExpression(o, _) => Renderable(o)
      case ReturnStatement(a) => Renderable(a)
      case VariableDeclaration(_, init) => Renderable(init)
      case FunctionDeclaration(_, _, body) =>
        forall i :: 0 <= i < |body| ==> body[i].Some? && Renderable(body[i])
      case _ => true
  }

  /** The lines `n.print(level)` writes: the node's header at its own level, then what
      `Below` lists. */
  function Render(n: Node, level: nat, lib: Lib): (r: seq<Line>)
    requires Renderable(Some(n))
    decreases n, 2
    ensures |r| >= 1 && r[0] == Line(level, Header(n, lib))
  {
    [Line(level, Header(n, lib))] + Below(n, level + 1, lib)
  }

  /** The lines after the header: the children in the order each class prints them and, for
      a function, its parameters before its body. */
  function Below(n: Node, level: nat, lib: Lib): seq<Line>
    requires Renderable(Some(n))
    decreases n, 1
  {
    match n
    case UnaryExpression(_, a) => Child(a, level, lib)
    case BinaryExpression(_, l, r) => Child(l, level, lib) + Child(r, level, lib)
    case CallExpression(c, _) => Child(c, level, lib) + Arguments(n, 0, level, lib)
    case MemberExpression(o, _) => Child(o, level, lib)
    case ReturnStatement(a) => Child(a, level, lib)
    case VariableDeclaration(_, init) => Child(init, level, lib)
    case FunctionDeclaration(_, params, _) => Params(params, level) + Body(n, 0, level, lib)
    case _ => []
  }

  /** `if (child) child->print(level)`. */
  function Child(c: Option<Node>, level: nat, lib: Lib): (r: seq<Line>)
    requires Renderable(c)
    decreases c
    ensures c.None? <==> r == []
  {
    if c.None? then [] else Render(c.value, level, lib)
  }

  /** The arguments of a call from the `i`-th on. */
  function Arguments(call: Node, i: nat, level: nat, lib: Lib): seq<Line>
    requires call.CallExpression? && i <= |call.arguments| && Renderable(Some(call))
    decreases call, 0, |call.arguments| - i
  {
    if i == |call.arguments| then []
    else Render(call.arguments[i].value, level, lib) + Arguments(call, i + 1, level, lib)
  }

  /** The statements of a function's body from the `i`-th on. */
  function Body(decl: Node, i: nat, level: nat, lib: Lib): seq<Line>
    requires decl.FunctionDeclaration? && i <= |decl.body| && Renderable(Some(decl))
    decreases decl, 0, |decl.body| - i
  {
    if i == |decl.body| then []
    else Render(decl.body[i].value, level, lib) + Body(decl, i + 1, level, lib)
  }

  /** One line per parameter (see `ParamLayout`). */
  function Params(params: seq<string>, level: nat): (r: seq<Line>)
    ensures |r| == |params|
    ensures forall k :: 0 <= k < |r| ==> r[k] == Line(level, params[k])
  {
    seq(|params|, k requires 0 <= k < |params| => Line(level, params[k]))
  }

  // ---------------------------------------------------------------------------------------
  // Only the header sits at the node's own level
  // ---------------------------------------------------------------------------------------

  /** All lines of `lines` are at `level` or deeper. */
  predicate AtLeast(lines: seq<Line>, level: nat) {
    forall k :: 0 <= k < |lines| ==> lines[k].level >= level
  }

  /** Every line after the header is at least one level deeper than the node: where a
      subtree's lines end can be read off the indentation. */
  lemma {:induction false} RenderIndented(n: Node, level: nat, lib: Lib)
    requires Renderable(Some(n))
    ensures AtLeast(Render(n, level, lib)[1..], level + 1)
    decreases n, 2
  {
    BelowIndented(n, level + 1, lib);
    assert Render(n, level, lib)[1..] == Below(n, level + 1, lib);
  }

  lemma {:induction false} BelowIndented(n: Node, level: nat, lib: Lib)
    requires Renderable(Some(n))
    ensures AtLeast(Below(n, level, lib), level)
    decreases n, 1
  {
    match n
    case UnaryExpression(_, a) => ChildIndented(a, level, lib);
    case BinaryExpression(_, l, r) => ChildIndented(l, level, lib); ChildIndented(r, level, lib);
    case CallExpression(c, _) => ChildIndented(c, level, lib); ArgumentsIndented(n, 0, level, lib);
    case MemberExpression(o, _) => ChildIndented(o, level, lib);
    case ReturnStatement(a) => ChildIndented(a, level, lib);
    case VariableDeclaration(_, init) => ChildIndented(init, level, lib);
    case FunctionDeclaration(_, _, _) => BodyIndented(n, 0, level, lib);
    case _ =>
  }

  lemma {:induction false} ChildIndented(c: Option<Node>, level: nat, lib: Lib)
    requires Renderable(c)
    ensures AtLeast(Child(c, level, lib), level)
    decreases c
  {
    if c.Some? {
      BelowIndented(c.value, level + 1, lib);
    }
  }

  lemma {:induction false} ArgumentsIndented(call: Node, i: nat, level: nat, lib: Lib)
    requires call.CallExpression? && i <= |call.arguments| && Renderable(Some(call))
    ensures AtLeast(Arguments(call, i, level, lib), level)
    decreases call, 0, |call.arguments| - i
  {
    if i < |call.arguments| {
      BelowIndented(call.arguments[i].value, level + 1, lib);
      ArgumentsIndented(call, i + 1, level, lib);
    }
  }

  lemma {:induction false} BodyIndented(decl: Node, i: nat, level: nat, lib: Lib)
    requires decl.FunctionDeclaration? && i <= |decl.body| && Renderable(Some(decl))
    ensures AtLeast(Body(decl, i, level, lib), level)
    decreases decl, 0, |decl.body| - i
  {
    if i < |decl.body| {
      BelowIndented(decl.body[i].value, level + 1, lib);
      BodyIndented(decl, i + 1, level, lib);
    }
  }

  // ---------------------------------------------------------------------------------------
  // Printing one level deeper shifts every line by two spaces
  // ---------------------------------------------------------------------------------------

  /** Every line one level deeper. */
  function Shift(lines: seq<Line>): (r: seq<Line>)
    ensures |r| == |lines|
    ensures forall k :: 0 <= k < |r| ==> r[k] == Line(lines[k].level + 1, lines[k].text)
  {
    seq(|lines|, k requires 0 <= k < |lines| => Line(lines[k].level + 1, lines[k].text))
  }

  /** One level deeper is two more spaces in front of the same characters. */
  lemma ShiftLayout(l: Line)
    ensures Layout(Line(l.level + 1, l.text)) == "  " + Layout(l)
  {
    assert Indent(l.level + 1) == "  " + Indent(l.level);
  }

  lemma ShiftAppend(a: seq<Line>, b: seq<Line>)
    ensures Shift(a + b) == Shift(a) + Shift(b)
  {
  }

  /** Printing a subtree one level deeper writes the same lines one level further in: the
      layout of a subtree does not depend on where it is printed. */
  lemma {:induction false} RenderShift(n: Node, level: nat, lib: Lib)
    requires Renderable(Some(n))
    ensures Render(n, level + 1, lib) == Shift(Render(n, level, lib))
    decreases n, 2
  {
    BelowShift(n, level + 1, lib);
    ShiftAppend([Line(level, Header(n, lib))], Below(n, level + 1, lib));
  }

  lemma {:induction false} BelowShift(n: Node, level: nat, lib: Lib)
    requires Renderable(Some(n))
    ensures Below(n, level + 1, lib) == Shift(Below(n, level, lib))
    decreases n, 1
  {
    match n
    case UnaryExpression(_, a) =>
      ChildShift(a, level, lib);
    case BinaryExpression(_, l, r) =>
      ChildShift(l, level, lib);
      ChildShift(r, level, lib);
      ShiftAppend(Child(l, level, lib), Child(r, level, lib));
    case CallExpression(c, _) =>
      ChildShift(c, level, lib);
      ArgumentsShift(n, 0, level, lib);
      ShiftAppend(Child(c, level, lib), Arguments(n, 0, level, lib));
    case MemberExpression(o, _) =>
      ChildShift(o, level, lib);
    case ReturnStatement(a) =>
      ChildShift(a, level, lib);
    case VariableDeclaration(_, init) =>
      ChildShift(init, level, lib);
    case FunctionDeclaration(_, params, _) =>
      BodyShift(n, 0, level, lib);
      ShiftAppend(Params(params, level), Body(n, 0, level, lib));
    case _ =>
  }

  lemma {:induction false} ChildShift(c: Option<Node>, level: nat, lib: Lib)
    requires Renderable(c)
    ensures Child(c, level + 1, lib) == Shift(Child(c, level, lib))
    decreases c
  {
    if c.Some? {
      RenderShift(c.value, level, lib);
    }
  }

  lemma {:induction false} ArgumentsShift(call: Node, i: nat, level: nat, lib: Lib)
    requires call.CallExpression? && i <= |call.arguments| && Renderable(Some(call))
    ensures Arguments(call, i, level + 1, lib) == Shift(Arguments(call, i, level, lib))
    decreases call, 0, |call.arguments| - i
  {
    if i < |call.arguments| {
      RenderShift(call.arguments[i].value, level, lib);
      ArgumentsShift(call, i + 1, level, lib);
      ShiftAppend(Render(call.arguments[i].value, level, lib), Arguments(call, i + 1, level, lib));
    }
  }

  lemma {:induction false} BodyShift(decl: Node, i: nat, level: nat, lib: Lib)
    requires decl.FunctionDeclaration? && i <= |decl.body| && Renderable(Some(decl))
    ensures Body(decl, i, level + 1, lib) == Shift(Body(decl, i, level, lib))
    decreases decl, 0, |decl.body| - i
  {
    if i < |decl.body| {
      RenderShift(decl.body[i].value, level, lib);
      BodyShift(decl, i + 1, level, lib);
      ShiftAppend(Render(decl.body[i].value, level, lib), Body(decl, i + 1, level, lib));
    }
  }

  // ---------------------------------------------------------------------------------------
  // One line per node and per parameter
  // ---------------------------------------------------------------------------------------

  /** The nodes present in a tree, plus one for each function parameter: an independent
      count of what the renderer has to write. */
  function Count(n: Option<Node>): nat
    decreases n, 1
  {
    match n
    case None => 0
    case Some(node) =>
      1 + match node
          case UnaryExpression(_, a) => Count(a)
          case BinaryExpression(_, l, r) => Count(l) + Count(r)
          case CallExpression(c, args) => Count(c) + CountFrom(node, args, 0)
          case MemberExpression(o, _) => Count(o)
          case ReturnStatement(a) => Count(a)
          case VariableDeclaration(_, init) => Count(init)
          case FunctionDeclaration(_, params, body) => |params| + CountFrom(node, body, 0)
          case _ => 0
  }

  /** The nodes in `items[i..]`, which are children of `parent`. */
  function CountFrom(parent: Node, items: seq<Option<Node>>, i: nat): nat
    requires i <= |items|
    requires (parent.CallExpression? && items == parent.arguments)
          || (parent.FunctionDeclaration? && items == parent.body)
    decreases parent, |items| - i
  {
    if i == |items| then 0 else Count(items[i]) + CountFrom(parent, items, i + 1)
  }

  /** The renderer writes exactly one line per node present and per parameter. */
  lemma {:induction false} RenderCount(n: Node, level: nat, lib: Lib)
    requires Renderable(Some(n))
    ensures |Render(n, level, lib)| == Count(Some(n))
    decreases n, 2
  {
    var d := level + 1;
    match n
    case UnaryExpression(_, a) => ChildCount(a, d, lib);
    case BinaryExpression(_, l, r) => ChildCount(l, d, lib); ChildCount(r, d, lib);
    case CallExpression(c, _) => ChildCount(c, d, lib); ArgumentsCount(n, 0, d, lib);
    case MemberExpression(o, _) => ChildCount(o, d, lib);
    case ReturnStatement(a) => ChildCount(a, d, lib);
    case VariableDeclaration(_, init) => ChildCount(init, d, lib);
    case FunctionDeclaration(_, _, _) => BodyCount(n, 0, d, lib);
    case _ =>
  }

  lemma {:induction false} ChildCount(c: Option<Node>, level: nat, lib: Lib)
    requires Renderable(c)
    ensures |Child(c, level, lib)| == Count(c)
    decreases c
  {
    if c.Some? {
      RenderCount(c.value, level, lib);
    }
  }

  lemma {:induction false} ArgumentsCount(call: Node, i: nat, level: nat, lib: Lib)
    requires call.CallExpression? && i <= |call.arguments| && Renderable(Some(call))
    ensures |Arguments(call, i, level, lib)| == CountFrom(call, call.arguments, i)
    decreases call, 0, |call.arguments| - i
  {
    if i < |call.arguments| {
      RenderCount(call.arguments[i].value, level, lib);
      ArgumentsCount(call, i + 1, level, lib);
    }
  }

  lemma {:induction false} BodyCount(decl: Node, i: nat, level: nat, lib: Lib)
    requires decl.FunctionDeclaration? && i <= |decl.body| && Renderable(Some(decl))
    ensures |Body(decl, i, level, lib)| == CountFrom(decl, decl.body, i)
    decreases decl, 0, |decl.body| - i
  {
    if i < |decl.body| {
      RenderCount(decl.body[i].value, level, lib);
      BodyCount(decl, i + 1, level, lib);
    }
  }

  // ---------------------------------------------------------------------------------------
  // The order in which children are printed
  // ---------------------------------------------------------------------------------------

  /** Every entry is present and can be printed. */
  predicate AllRenderable(nodes: seq<Option<Node>>) {
    forall k :: 0 <= k < |nodes| ==> nodes[k].Some? && Renderable(nodes[k])
  }

  /** The lines of printing each of `nodes` in turn, all at `level`: a plain list
      rendering, independent of the parent that holds the list. */
  function RenderEach(nodes: seq<Option<Node>>, level: nat, lib: Lib): seq<Line>
    requires AllRenderable(nodes)
    decreases |nodes|
  {
    if nodes == [] then []
    else
      assert AllRenderable(nodes[1..]) by {
        forall k | 0 <= k < |nodes[1..]| ensures nodes[1..][k] == nodes[k + 1] { }
      }
      Render(nodes[0].value, level, lib) + RenderEach(nodes[1..], level, lib)
  }

  /** A call's arguments from the `i`-th on are printed one after the other, in order. */
  lemma {:induction false} ArgumentsInOrder(call: Node, i: nat, level: nat, lib: Lib)
    requires call.CallExpression? && i <= |call.arguments| && Renderable(Some(call))
    ensures AllRenderable(call.arguments[i..])
    ensures Arguments(call, i, level, lib) == RenderEach(call.arguments[i..], level, lib)
    decreases |call.arguments| - i
  {
    var rest := call.arguments[i..];
    assert forall k | 0 <= k < |rest| :: rest[k] == call.arguments[i + k];
    if i < |call.arguments| {
      ArgumentsInOrder(call, i + 1, level, lib);
      assert rest[1..] == call.arguments[i + 1..];
    }
  }

  /** A function's statements from the `i`-th on are printed one after the other, in order. */
  lemma {:induction false} BodyInOrder(decl: Node, i: nat, level: nat, lib: Lib)
    requires decl.FunctionDeclaration? && i <= |decl.body| && Renderable(Some(decl))
    ensures AllRenderable(decl.body[i..])
    ensures Body(decl, i, level, lib) == RenderEach(decl.body[i..], level, lib)
    decreases |decl.body| - i
  {
    var rest := decl.body[i..];
    assert forall k | 0 <= k < |rest| :: rest[k] == decl.body[i + k];
    if i < |decl.body| {
      BodyInOrder(decl, i + 1, level, lib);
      assert rest[1..] == decl.body[i + 1..];
    }
  }

  /** A binary prints its operator line, then its left operand, then its right operand,
      both one level deeper. */
  lemma BinaryOrder(op: string, l: Node, r: Node, level: nat, lib: Lib)
    requires Renderable(Some(l)) && Renderable(Some(r))
    ensures Render(BinaryExpression(op, Some(l), Some(r)), level, lib)
            == [Line(level, "BinaryExpression: " + op)] + Render(l, level + 1, lib) + Render(r, level + 1, lib)
  {
    var b := BinaryExpression(op, Some(l), Some(r));
    var left, right := Render(l, level + 1, lib), Render(r, level + 1, lib);
    assert Below(b, level + 1, lib) == left + right by {
      assert Child(Some(l), level + 1, lib) == left;
      assert Child(Some(r), level + 1, lib) == right;
    }
    assert [Line(level, "BinaryExpression: " + op)] + (left + right)
           == [Line(level, "BinaryExpression: " + op)] + left + right;
  }

  /** A call prints its own line, then its callee if there is one, then its arguments in
      order, all one level deeper. */
  lemma CallOrder(callee: Option<Node>, args: seq<Option<Node>>, level: nat, lib: Lib)
    requires Renderable(callee) && AllRenderable(args)
    ensures Render(CallExpression(callee, args), level, lib)
            == [Line(level, "CallExpression")] + Child(callee, level + 1, lib) + RenderEach(args, level + 1, lib)
  {
    var call := CallExpression(callee, args);
    var head, rest := Child(callee, level + 1, lib), RenderEach(args, level + 1, lib);
    assert Below(call, level + 1, lib) == head + rest by {
      ArgumentsInOrder(call, 0, level + 1, lib);
      assert args[0..] == args;
    }
    assert [Line(level, "CallExpression")] + (head + rest) == [Line(level, "CallExpression")] + head + rest;
  }

  /** A function prints its own line, then one line per parameter, then its statements in
      order, all one level deeper. */
  lemma FunctionOrder(name: string, params: seq<string>, body: seq<Option<Node>>, level: nat, lib: Lib)
    requires AllRenderable(body)
    ensures Render(FunctionDeclaration(name, params, body), level, lib)
            == [Line(level, "FunctionDeclaration: " + name)] + Params(params, level + 1) + RenderEach(body, level + 1, lib)
  {
    var decl := FunctionDeclaration(name, params, body);
    var names, stmts := Params(params, level + 1), RenderEach(body, level + 1, lib);
    assert Below(decl, level + 1, lib) == names + stmts by {
      BodyInOrder(decl, 0, level + 1, lib);
      assert body[0..] == body;
    }
    assert [Line(level, "FunctionDeclaration: " + name)] + (names + stmts)
           == [Line(level, "FunctionDeclaration: " + name)] + names + stmts;
  }

  /** `f(1)`: the call's line, then its callee, then its argument. */
  lemma CallExample(lib: Lib)
    ensures Render(CallExpression(Some(Identifier("f")), [Some(Literal(Number(1.0)))]), 1, lib)
            == [Line(1, "CallExpression"), Line(2, "Identifier: f"), Line(2, "Literal: " + lib.stream(1.0))]
  {
    var one := Literal(Number(1.0));
    var f := [Line(2, "Identifier: f")];
    var arg := [Line(2, "Literal: " + lib.stream(1.0))];
    assert Child(Some(Identifier("f")), 2, lib) == f by {
      assert Header(Identifier("f"), lib) == "Identifier: " + "f" == "Identifier: f";
      assert Render(Identifier("f"), 2, lib) == f + [];
    }
    assert RenderEach([Some(one)], 2, lib) == arg by {
      assert Render(one, 2, lib) == arg + [];
      assert RenderEach([Some(one)], 2, lib) == Render(one, 2, lib) + RenderEach([], 2, lib);
    }
    CallOrder(Some(Identifier("f")), [Some(one)], 1, lib);
  }

  /** `f(1) + x`: the operator, then the whole call, then the right operand. */
  lemma BinaryOfCallExample(lib: Lib)
    ensures var call := CallExpression(Some(Identifier("f")), [Some(Literal(Number(1.0)))]);
            Render(BinaryExpression("+", Some(call), Some(Identifier("x"))), 0, lib)
            == [Line(0, "BinaryExpression: +"), Line(1, "CallExpression"), Line(2, "Identifier: f"),
                Line(2, "Literal: " + lib.stream(1.0)), Line(1, "Identifier: x")]
  {
    var call := CallExpression(Some(Identifier("f")), [Some(Literal(Number(1.0)))]);
    CallExample(lib);
    assert Render(Identifier("x"), 1, lib) == [Line(1, "Identifier: x")] by {
      assert Header(Identifier("x"), lib) == "Identifier: " + "x" == "Identifier: x";
      assert Render(Identifier("x"), 1, lib) == [Line(1, "Identifier: x")] + [];
    }
    assert "BinaryExpression: " + "+" == "BinaryExpression: +";
    BinaryOrder("+", call, Identifier("x"), 0, lib);
  }



  /** `function f(a) { return a; }` prints its parameter and its statement at the same
      level, the statement's argument one level further. */
  lemma FunctionExample(lib: Lib)
    ensures var decl := FunctionDeclaration("f", ["a"], [Some(ReturnStatement(Some(Identifier("a"))))]);
            Render(decl, 0, lib)
            == [Line(0, "FunctionDeclaration: f"), Line(1, "a"), Line(1, "ReturnStatement"), Line(2, "Identifier: a")]
  {
    var ret := ReturnStatement(Some(Identifier("a")));
    var decl := FunctionDeclaration("f", ["a"], [Some(ret)]);
    assert Header(Identifier("a"), lib) == "Identifier: " + "a" == "Identifier: a";
    assert Below(Identifier("a"), 3, lib) == [];
    assert Render(Identifier("a"), 2, lib) == [Line(2, "Identifier: a")] + [];
    assert Render(ret, 1, lib) == [Line(1, "ReturnStatement"), Line(2, "Identifier: a")];
    assert Body(decl, 1, 1, lib) == [];
    assert Body(decl, 0, 1, lib) == [Line(1, "ReturnStatement"), Line(2, "Identifier: a")];
    assert Params(["a"], 1) == [Line(1, "a")];
    assert Header(decl, lib) == "FunctionDeclaration: " + "f" == "FunctionDeclaration: f";
    assert Below(decl, 1, lib) == [Line(1, "a")] + [Line(1, "ReturnStatement"), Line(2, "Identifier: a")];
  }

  /** A boolean literal is written as a digit: the stream has no `boolalpha` set. */
  lemma BoolLiteralExample(lib: Lib)
    ensures Render(Literal(Bool(true)), 0, lib) == [Line(0, "Literal: 1")]
    ensures Render(Literal(Bool(false)), 3, lib) == [Line(3, "Literal: 0")]
  {
    assert "Literal: " + "1" == "Literal: 1" && "Literal: " + "0" == "Literal: 0";
  }

  /** The characters of those lines: two spaces per level. */
  lemma FunctionExampleLayout()
    ensures Layout(Line(0, "FunctionDeclaration: f")) == "FunctionDeclaration: f"
    ensures Layout(Line(1, "a")) == "  a"
    ensures Layout(Line(2, "Identifier: a")) == "    Identifier: a"
  {
    assert Layout(Line(0, "FunctionDeclaration: f")) == "FunctionDeclaration: f" by {
      assert Indent(0) == "";
    }
    assert Layout(Line(1, "a")) == "  a" by {
      assert Indent(1) == "  ";
    }
    assert Indent(2) == "    ";
  }
}
