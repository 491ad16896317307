/** Properties of the optimizer that relate several calls, or that hold for every operand. */
module OptimizerProperties {
  import opened Wrappers
  import opened Ast
  import opened Host
  import opened Optimizer
  import Render

  /** When both operands of a binary are literals after their own optimization, the node
      becomes a literal holding the folded value; the one failure is a number divided by
      the number zero. */
  lemma BothLiteralOperandsFold(op: string, left: Option<Node>, right: Option<Node>, lib: Lib)
    requires OptimizeExpression(left, lib).Ok? && IsLiteral(OptimizeExpression(left, lib).value.node)
    requires OptimizeExpression(right, lib).Ok? && IsLiteral(OptimizeExpression(right, lib).value.node)
    ensures var a := OptimizeExpression(left, lib).value.node.value.value;
            var b := OptimizeExpression(right, lib).value.node.value.value;
            var r := OptimizeExpression(Some(BinaryExpression(op, left, right)), lib);
            && (r.Err? <==> (a.Number? && b.Number? && op == "/" && b.n == 0.0))
            && (r.Ok? ==> r.value.node == Some(Literal(FoldValues(op, a, b, lib).value)))
  {
  }

  /** Operator and kind pairs that no folding rule names still become a literal: the number
      0 a fresh literal holds. */
  lemma UnmatchedPairsGiveZero(lib: Lib)
    ensures var two, three := Some(Literal(Number(2.0))), Some(Literal(Number(3.0)));
            var a := Some(Literal(Str("a")));
            var yes := Some(Literal(Bool(true)));
            var zero := Ok(Optimized(Some(Literal(Number(0.0))), ""));
            && OptimizeExpression(Some(BinaryExpression("&&", two, three)), lib) == zero
            && OptimizeExpression(Some(BinaryExpression("==", a, a)), lib) == zero
            && OptimizeExpression(Some(BinaryExpression("*", yes, two)), lib) == zero
  {
    var two, three := Some(Literal(Number(2.0))), Some(Literal(Number(3.0)));
    var a := Some(Literal(Str("a")));
    var yes := Some(Literal(Bool(true)));
    var zero := Ok(Optimized(Some(Literal(Number(0.0))), ""));
    assert "" + "" == "";
    assert OptimizeExpression(Some(BinaryExpression("&&", two, three)), lib) == zero by {
      BinaryStep("&&", two, three, lib);
    }
    assert OptimizeExpression(Some(BinaryExpression("==", a, a)), lib) == zero by {
      BinaryStep("==", a, a, lib);
    }
    assert OptimizeExpression(Some(BinaryExpression("*", yes, two)), lib) == zero by {
      BinaryStep("*", yes, two, lib);
    }
  }

  /** One step of `optimizeExpression` on a binary whose operands optimize without error. */
  lemma BinaryStep(op: string, left: Option<Node>, right: Option<Node>, lib: Lib)
    requires OptimizeExpression(left, lib).Ok? && OptimizeExpression(right, lib).Ok?
    ensures var l := OptimizeExpression(left, lib).value;
            var r := OptimizeExpression(right, lib).value;
            OptimizeExpression(Some(BinaryExpression(op, left, right)), lib) ==
              match ConstantFolding(op, l.node, r.node, lib)
              case Ok(f) => Ok(Optimized(DeadCodeElimination(f), l.output + r.output))
              case Err(e) => Err(e)
  {
  }

  /** One step of `optimizeExpression` on a unary whose operand optimizes without error. */
  lemma UnaryStep(op: string, arg: Option<Node>, lib: Lib)
    requires OptimizeExpression(arg, lib).Ok?
    ensures var a := OptimizeExpression(arg, lib).value;
            OptimizeExpression(Some(UnaryExpression(op, arg)), lib)
            == Ok(Optimized(OptimizeUnary(op, a.node, lib), a.output))
  {
  }

  lemma TimesZeroStep(m: Option<Node>, lib: Lib)
    ensures var zero := Some(Literal(Number(0.0)));
      && ConstantFolding("*", m, zero, lib).Ok?
      && DeadCodeElimination(ConstantFolding("*", m, zero, lib).value) == zero
      && ConstantFolding("*", zero, m, lib).Ok?
      && DeadCodeElimination(ConstantFolding("*", zero, m, lib).value) == zero
  {
    if IsLiteral(m) {
      var v := m.value.value;
      assert FoldValues("*", v, Number(0.0), lib) == Ok(Number(0.0)) by {
        if v.Number? {
          assert v.n * 0.0 == 0.0;
        }
      }
      assert FoldValues("*", Number(0.0), v, lib) == Ok(Number(0.0)) by {
        if v.Number? {
          assert 0.0 * v.n == 0.0;
        }
      }
    }
  }

  /** `x * 0` and `0 * x` become the literal 0 whatever `x` is, literal or not, as long as
      optimizing `x` itself does not fail. */
  lemma TimesZero(x: Option<Node>, lib: Lib)
    requires OptimizeExpression(x, lib).Ok?
    ensures var zero := Some(Literal(Number(0.0)));
            var out := OptimizeExpression(x, lib).value.output;
            && OptimizeExpression(Some(BinaryExpression("*", x, zero)), lib) == Ok(Optimized(zero, out))
            && OptimizeExpression(Some(BinaryExpression("*", zero, x)), lib) == Ok(Optimized(zero, out))
  {
    var zero := Some(Literal(Number(0.0)));
    assert OptimizeExpression(zero, lib) == Ok(Optimized(zero, ""));
    BinaryStep("*", x, zero, lib);
    BinaryStep("*", zero, x, lib);
    TimesZeroStep(OptimizeExpression(x, lib).value.node, lib);
    var out := OptimizeExpression(x, lib).value.output;
    assert out + "" == out && "" + out == out;
  }

  /** `!!e` optimizes exactly like `e` when `e` does not become a literal or a `!` unary. */
  lemma DoubleNegation(e: Option<Node>, lib: Lib)
    requires OptimizeExpression(e, lib).Ok?
    requires !IsLiteral(OptimizeExpression(e, lib).value.node)
    requires var m := OptimizeExpression(e, lib).value.node;
             !(m.Some? && m.value.UnaryExpression? && m.value.op == "!")
    ensures OptimizeExpression(Some(UnaryExpression("!", Some(UnaryExpression("!", e)))), lib)
         == OptimizeExpression(e, lib)
  {
  }

  /** `console.log(...)` keeps its callee and its number of argument slots, empties every
      slot, and always ends what it writes with a newline. */
  lemma ConsoleLogCall(args: seq<Option<Node>>, lib: Lib)
    ensures var callee := Some(MemberExpression(Some(Identifier("console")), "log"));
            var r := OptimizeExpression(Some(CallExpression(callee, args)), lib);
            r.Ok? ==>
              && r.value.node == Some(CallExpression(callee, Emptied(|args|)))
              && |r.value.output| > 0 && r.value.output[|r.value.output| - 1] == '\n'
  {
  }

  /** `words` joined by single spaces. */
  function Join(words: seq<string>): string
  {
    if |words| == 0 then ""
    else if |words| == 1 then words[0]
    else Join(words[..|words| - 1]) + " " + words[|words| - 1]
  }

  /** The texts `console.log` writes for literal arguments, in order. */
  function LiteralTexts(args: seq<Option<Node>>, lib: Lib): (r: seq<string>)
    requires forall i :: 0 <= i < |args| ==> IsLiteral(args[i])
    ensures |r| == |args|
  {
    seq(|args|, i requires 0 <= i < |args| && IsLiteral(args[i]) => LogText(args[i].value.value, lib))
  }

  /** Each word preceded by one space. */
  function Spaced(words: seq<string>): string
  {
    if |words| == 0 then "" else " " + words[0] + Spaced(words[1..])
  }

  lemma {:induction false} SpacedSplit(words: seq<string>)
    requires |words| > 0
    ensures Spaced(words) == Spaced(words[..|words| - 1]) + " " + words[|words| - 1]
    decreases |words|
  {
    if |words| > 1 {
      SpacedSplit(words[1..]);
      assert words[1..][..|words[1..]| - 1] == words[..|words| - 1][1..];
    }
  }

  lemma {:induction false} JoinSpaced(words: seq<string>)
    requires |words| > 0
    ensures Join(words) == words[0] + Spaced(words[1..])
    decreases |words|
  {
    if |words| > 1 {
      JoinSpaced(words[..|words| - 1]);
      SpacedSplit(words[1..]);
      assert words[..|words| - 1][1..] == words[1..][..|words[1..]| - 1];
    }
  }

  /** One iteration of the `console.log` loop over an argument that optimizes to a literal,
      such as `1 + 2` or `-1`: what optimizing it writes, then the literal's text, preceded by
      a space unless it is the first argument. */
  lemma LogLiteralStep(call: Node, i: nat, lib: Lib)
    requires call.CallExpression? && i < |call.arguments|
    requires OptimizeExpression(call.arguments[i], lib).Ok?
    requires IsLiteral(OptimizeExpression(call.arguments[i], lib).value.node)
    ensures var a := OptimizeExpression(call.arguments[i], lib).value;
            var text := (if i > 0 then " " else "") + LogText(a.node.value.value, lib);
            LogArguments(call, i, lib) ==
              match LogArguments(call, i + 1, lib)
              case Ok(rest) => Ok(a.output + text + rest)
              case Err(e) => Err(e)
  {
  }

  /** An argument that is a literal already writes nothing while being optimized, only its
      text. */
  lemma LogLiteralArgument(call: Node, i: nat, lib: Lib)
    requires call.CallExpression? && i < |call.arguments| && IsLiteral(call.arguments[i])
    ensures var text := (if i > 0 then " " else "") + LogText(call.arguments[i].value.value, lib);
            LogArguments(call, i, lib) ==
              match LogArguments(call, i + 1, lib)
              case Ok(rest) => Ok(text + rest)
              case Err(e) => Err(e)
  {
    var arg := call.arguments[i];
    assert OptimizeExpression(arg, lib) == Ok(Optimized(arg, ""));
    LogLiteralStep(call, i, lib);
    var text := (if i > 0 then " " else "") + LogText(arg.value.value, lib);
    assert "" + text == text;
  }

  /** The three renderings of a literal: string concatenation (`toString`), `console.log` and
      `print`. They agree on strings; booleans are words for the first two and digits for
      `print`; numbers go through `std::to_string` for concatenation and through the stream
      otherwise. */
  lemma LiteralRenderings(v: Value, lib: Lib)
    ensures v.Str? ==> ToText(v, lib) == LogText(v, lib) == Render.LiteralText(v, lib) == v.s
    ensures v.Bool? ==> ToText(v, lib) == LogText(v, lib) != Render.LiteralText(v, lib)
    ensures v.Number? ==> LogText(v, lib) == Render.LiteralText(v, lib) == lib.stream(v.n)
    ensures v.Number? ==> ToText(v, lib) == lib.toString(v.n)
  {
  }

  /** An ordinary call `f(1 + 2)` keeps its callee and folds its argument: `f(3)`. */
  lemma OrdinaryCallExample(lib: Lib)
    ensures var sum := Some(BinaryExpression("+", Some(Literal(Number(1.0))), Some(Literal(Number(2.0)))));
            var r := OptimizeExpression(Some(CallExpression(Some(Identifier("f")), [sum])), lib);
            r.Ok? && r.value.node == Some(CallExpression(Some(Identifier("f")), [Some(Literal(Number(3.0)))]))
  {
    var one, two := Some(Literal(Number(1.0))), Some(Literal(Number(2.0)));
    var sum := Some(BinaryExpression("+", one, two));
    var call := CallExpression(Some(Identifier("f")), [sum]);
    assert OptimizeExpression(sum, lib) == Ok(Optimized(Some(Literal(Number(3.0))), "")) by {
      BinaryStep("+", one, two, lib);
      assert FoldValues("+", Number(1.0), Number(2.0), lib) == Ok(Number(3.0));
      assert ConstantFolding("+", one, two, lib) == Ok(Literal(Number(3.0)));
      assert DeadCodeElimination(Literal(Number(3.0))) == Some(Literal(Number(3.0)));
      assert "" + "" == "";
    }
    assert OptimizeArguments(call, 1, lib) == Ok(OptimizedList([], ""));
    assert OptimizeArguments(call, 0, lib).Ok?;
    assert OptimizeArguments(call, 0, lib).value.nodes == [Some(Literal(Number(3.0)))];
  }

  /** `console.log(1 + 2)` folds its argument first and writes the stream form of 3. */
  lemma ConsoleLogFoldedExample(lib: Lib)
    ensures var callee := Some(MemberExpression(Some(Identifier("console")), "log"));
            var sum := Some(BinaryExpression("+", Some(Literal(Number(1.0))), Some(Literal(Number(2.0)))));
            OptimizeExpression(Some(CallExpression(callee, [sum])), lib)
            == Ok(Optimized(Some(CallExpression(callee, [None])), lib.stream(3.0) + "\n"))
  {
    var callee := Some(MemberExpression(Some(Identifier("console")), "log"));
    var sum := Some(BinaryExpression("+", Some(Literal(Number(1.0))), Some(Literal(Number(2.0)))));
    var call := CallExpression(callee, [sum]);
    var one, two := Some(Literal(Number(1.0))), Some(Literal(Number(2.0)));
    assert OptimizeExpression(sum, lib) == Ok(Optimized(Some(Literal(Number(3.0))), "")) by {
      BinaryStep("+", one, two, lib);
      assert FoldValues("+", Number(1.0), Number(2.0), lib) == Ok(Number(3.0));
      assert ConstantFolding("+", one, two, lib) == Ok(Literal(Number(3.0)));
      assert DeadCodeElimination(Literal(Number(3.0))) == Some(Literal(Number(3.0)));
      assert "" + "" == "";
    }
    LogLiteralStep(call, 0, lib);
    assert LogArguments(call, 1, lib) == Ok("");
    assert LogText(Number(3.0), lib) == lib.stream(3.0);
    assert "" + ("" + lib.stream(3.0)) + "" == lib.stream(3.0);
    assert LogArguments(call, 0, lib) == Ok(lib.stream(3.0));
    assert IsConsoleLog(callee) && Emptied(1) == [None];
  }

  /** An argument that does not become a literal contributes only what optimizing it
      writes: no text of its own and no separating space. */
  lemma LogNonLiteralStep(call: Node, i: nat, lib: Lib)
    requires call.CallExpression? && i < |call.arguments|
    requires OptimizeExpression(call.arguments[i], lib).Ok?
    requires !IsLiteral(OptimizeExpression(call.arguments[i], lib).value.node)
    ensures var out := OptimizeExpression(call.arguments[i], lib).value.output;
            LogArguments(call, i, lib) ==
              match LogArguments(call, i + 1, lib)
              case Ok(rest) => Ok(out + rest)
              case Err(e) => Err(e)
  {
    var out := OptimizeExpression(call.arguments[i], lib).value.output;
    assert out + "" == out;
  }

  /** From index `i > 0` on, literal arguments contribute a space and their text each. */
  lemma {:induction false} LogLiteralSuffix(call: Node, i: nat, lib: Lib)
    requires call.CallExpression? && 0 < i <= |call.arguments|
    requires forall k :: 0 <= k < |call.arguments| ==> IsLiteral(call.arguments[k])
    ensures LogArguments(call, i, lib) == Ok(Spaced(LiteralTexts(call.arguments, lib)[i..]))
    decreases |call.arguments| - i
  {
    var texts := LiteralTexts(call.arguments, lib);
    if i < |call.arguments| {
      LogLiteralSuffix(call, i + 1, lib);
      LogLiteralArgument(call, i, lib);
      assert texts[i..][1..] == texts[i + 1..];
      assert Spaced(texts[i..]) == " " + texts[i] + Spaced(texts[i + 1..]);
    }
  }

  /** For a call whose arguments are all literals, `console.log` writes their texts joined
      by single spaces and then a newline. */
  lemma ConsoleLogLiterals(args: seq<Option<Node>>, lib: Lib)
    requires forall k :: 0 <= k < |args| ==> IsLiteral(args[k])
    ensures var callee := Some(MemberExpression(Some(Identifier("console")), "log"));
            OptimizeExpression(Some(CallExpression(callee, args)), lib)
            == Ok(Optimized(Some(CallExpression(callee, Emptied(|args|))), Join(LiteralTexts(args, lib)) + "\n"))
  {
    var callee := Some(MemberExpression(Some(Identifier("console")), "log"));
    var call := CallExpression(callee, args);
    var texts := LiteralTexts(args, lib);
    if |args| > 0 {
      LogLiteralSuffix(call, 1, lib);
      LogLiteralArgument(call, 0, lib);
      JoinSpaced(texts);
      assert "" + texts[0] == texts[0];
      assert texts[1..] == texts[1..];
    }
    assert LogArguments(call, 0, lib) == Ok(Join(texts));
  }

  /** `console.log("a", 1, true)` writes `a 1 true` and a newline when the stream renders
      the number one as `1`. */
  lemma ConsoleLogExample(lib: Lib)
    requires lib.stream(1.0) == "1"
    ensures var callee := Some(MemberExpression(Some(Identifier("console")), "log"));
            var args := [Some(Literal(Str("a"))), Some(Literal(Number(1.0))), Some(Literal(Bool(true)))];
            OptimizeExpression(Some(CallExpression(callee, args)), lib)
            == Ok(Optimized(Some(CallExpression(callee, [None, None, None])), "a 1 true\n"))
  {
    var args := [Some(Literal(Str("a"))), Some(Literal(Number(1.0))), Some(Literal(Bool(true)))];
    ConsoleLogLiterals(args, lib);
    var texts := LiteralTexts(args, lib);
    assert texts == ["a", "1", "true"];
    assert texts[..2] == ["a", "1"] && texts[..2][..1] == ["a"];
    assert Join(["a"]) == "a";
    assert Join(["a", "1"]) == "a" + " " + "1" == "a 1";
    assert Join(texts) == "a 1" + " " + "true" == "a 1 true";
    assert "a 1 true" + "\n" == "a 1 true\n";
    assert Emptied(3) == [None, None, None];
  }

  /** One `optimizeDeclaration` of a function whose body statements optimize without error. */
  lemma DeclareStep(reg: Registry, decl: Node, lib: Lib)
    requires decl.FunctionDeclaration? && OptimizeBody(decl, 0, lib).Ok?
    ensures var b := OptimizeBody(decl, 0, lib).value;
            OptimizeDeclaration(reg, Some(decl), lib)
            == Ok(Declared(Some(FunctionDeclaration(decl.name, decl.params, Emptied(|decl.body|))),
                           reg[decl.name := FunctionDeclaration(decl.name, decl.params, b.nodes)], b.output))
  {
  }

  /** A declared function whose body is `return e`, with `e` optimizing to a literal, makes
      every later call to it inline to that literal, whatever the call's arguments. */
  lemma DeclareThenInline(reg: Registry, f: string, params: seq<string>, e: Option<Node>,
                          args: seq<Option<Node>>, lib: Lib)
    requires OptimizeExpression(e, lib).Ok? && IsLiteral(OptimizeExpression(e, lib).value.node)
    ensures var d := OptimizeDeclaration(reg, Some(FunctionDeclaration(f, params, [Some(ReturnStatement(e))])), lib);
            && d.Ok?
            && InlineSimpleFunctions(d.value.registry, Some(CallExpression(Some(Identifier(f)), args)))
               == OptimizeExpression(e, lib).value.node
  {
    var decl := FunctionDeclaration(f, params, [Some(ReturnStatement(e))]);
    var a := OptimizeExpression(e, lib).value;
    assert OptimizeStatement(Some(ReturnStatement(e)), lib) == Ok(Optimized(Some(ReturnStatement(a.node)), a.output));
    assert OptimizeBody(decl, 1, lib) == Ok(OptimizedList([], ""));
    var b := OptimizeBody(decl, 0, lib);
    assert b.Ok? && b.value.nodes == [Some(ReturnStatement(a.node))];
    DeclareStep(reg, decl, lib);
    var registry := reg[f := FunctionDeclaration(f, params, b.value.nodes)];
    assert ConstantReturn(registry, f) == Some(a.node.value.value);
  }

  /** A function with any body other than a single `return <literal>` is never inlined:
      here, one with two statements. */
  lemma TwoStatementsNotInlined(reg: Registry, f: string, params: seq<string>, s1: Option<Node>,
                                s2: Option<Node>, args: seq<Option<Node>>, lib: Lib)
    ensures var d := OptimizeDeclaration(reg, Some(FunctionDeclaration(f, params, [s1, s2])), lib);
            var call := Some(CallExpression(Some(Identifier(f)), args));
            d.Ok? ==> InlineSimpleFunctions(d.value.registry, call) == call
  {
  }
}
