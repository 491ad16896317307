/** The optimizer preserves the value of every arithmetic expression: numbers and names
    combined by `+ - * /` and signed by unary `-` or `+`. (The parser's grammar also builds
    strings and calls, which this fragment leaves out, and has no unary operator.)

    `Eval` is an independent reference semantics of that fragment over real arithmetic,
    with every name bound by an environment to a number. It is partial: it has no value for
    a division by zero or for anything outside the fragment. */
module Soundness {
  import opened Wrappers
  import opened Ast
  import opened Host
  import opened Optimizer
  import OptimizerProperties

  /** The four operators of the expression grammar on numbers. */
  function Arith(op: string, x: real, y: real): Option<real> {
    if op == "+" then Some(x + y)
    else if op == "-" then Some(x - y)
    else if op == "*" then Some(x * y)
    else if op == "/" && y != 0.0 then Some(x / y)
    else None
  }

  /** The numeric value of an arithmetic expression in the environment `env`. */
  function Eval(env: string -> real, n: Option<Node>): Option<real>
    decreases n
  {
    match n
    case Some(Literal(Number(x))) => Some(x)
    case Some(Identifier(name)) => Some(env(name))
    case Some(UnaryExpression(op, a)) =>
      if op == "-" then (if Eval(env, a).Some? then Some(-Eval(env, a).value) else None)
      else if op == "+" then Eval(env, a)
      else None
    case Some(BinaryExpression(op, l, r)) =>
      if Eval(env, l).Some? && Eval(env, r).Some? then Arith(op, Eval(env, l).value, Eval(env, r).value)
      else None
    case _ => None
  }

  /** `optimizeUnary` keeps the value of a unary whose operand `m` has the value of `a`. */
  lemma UnaryKeepsValue(env: string -> real, op: string, m: Option<Node>, a: Option<Node>, lib: Lib)
    requires Eval(env, m) == Eval(env, a) && Eval(env, Some(UnaryExpression(op, a))).Some?
    ensures Eval(env, OptimizeUnary(op, m, lib)) == Eval(env, Some(UnaryExpression(op, a)))
  {
    assert op == "-" || op == "+";
    if m.Some? && m.value.UnaryExpression? && Collapses(op, m.value.op) {
      assert op == "-";
      assert Eval(env, m) == Some(-Eval(env, m.value.argument).value);
    } else {
      assert Eval(env, Some(UnaryExpression(op, m))) == Eval(env, Some(UnaryExpression(op, a)));
    }
  }

  /** Folding two number literals yields the literal of the operation's value. */
  lemma FoldKeepsValue(op: string, x: real, y: real, lib: Lib)
    requires Arith(op, x, y).Some?
    ensures ConstantFolding(op, Some(Literal(Number(x))), Some(Literal(Number(y))), lib)
         == Ok(Literal(Number(Arith(op, x, y).value)))
  {
    var v := Arith(op, x, y).value;
    var f := FoldValues(op, Number(x), Number(y), lib);
    if op == "+" {
      assert f.Ok? && f.value == Number(x + y);
    } else if op == "-" {
      assert f.Ok? && f.value == Number(x - y);
    } else if op == "*" {
      assert f.Ok? && f.value == Number(x * y);
    } else {
      assert op == "/" && y != 0.0;
      assert f.Ok? && f.value == Number(x / y);
    }
  }

  /** The algebraic identities of dead-code elimination keep the value of a binary. */
  lemma RulesKeepValue(env: string -> real, op: string, l: Option<Node>, r: Option<Node>)
    requires Eval(env, Some(BinaryExpression(op, l, r))).Some?
    ensures Eval(env, DeadCodeElimination(BinaryExpression(op, l, r)))
         == Eval(env, Some(BinaryExpression(op, l, r)))
  {
    var x, y := Eval(env, l).value, Eval(env, r).value;
    if op == "*" {
      if NumberOf(l) == Some(1.0) {
        assert 1.0 * y == y;
      } else if NumberOf(r) == Some(1.0) {
        assert x * 1.0 == x;
      } else if NumberOf(l) == Some(0.0) {
        assert 0.0 * y == 0.0;
      } else if NumberOf(r) == Some(0.0) {
        assert x * 0.0 == 0.0;
      }
    } else if op == "/" {
      if NumberOf(r) == Some(1.0) {
        assert x / 1.0 == x;
      }
    }
  }

  /** Folding and the algebraic rules keep the value of a binary over optimized operands. */
  lemma BinaryKeepsValue(env: string -> real, op: string, l: Option<Node>, r: Option<Node>, lib: Lib)
    requires Eval(env, Some(BinaryExpression(op, l, r))).Some?
    ensures ConstantFolding(op, l, r, lib).Ok?
    ensures Eval(env, DeadCodeElimination(ConstantFolding(op, l, r, lib).value))
         == Eval(env, Some(BinaryExpression(op, l, r)))
  {
    var x, y := Eval(env, l).value, Eval(env, r).value;
    if IsLiteral(l) && IsLiteral(r) {
      assert l == Some(Literal(Number(x))) && r == Some(Literal(Number(y)));
      FoldKeepsValue(op, x, y, lib);
    } else {
      assert ConstantFolding(op, l, r, lib) == Ok(BinaryExpression(op, l, r));
      RulesKeepValue(env, op, l, r);
    }
  }

  /** The value of an optimized operand, as the induction hypothesis states it. */
  predicate Keeps(env: string -> real, n: Option<Node>, lib: Lib) {
    && OptimizeExpression(n, lib).Ok?
    && OptimizeExpression(n, lib).value.output == ""
    && Eval(env, OptimizeExpression(n, lib).value.node) == Eval(env, n)
  }

  lemma UnaryCase(env: string -> real, op: string, a: Option<Node>, lib: Lib)
    requires Eval(env, Some(UnaryExpression(op, a))).Some? && Keeps(env, a, lib)
    ensures Keeps(env, Some(UnaryExpression(op, a)), lib)
  {
    var o := OptimizeExpression(a, lib).value;
    var m := o.node;
    assert OptimizeExpression(Some(UnaryExpression(op, a)), lib) == Ok(Optimized(OptimizeUnary(op, m, lib), o.output)) by {
      OptimizerProperties.UnaryStep(op, a, lib);
    }
    UnaryKeepsValue(env, op, m, a, lib);
  }

  lemma BinaryCase(env: string -> real, op: string, l: Option<Node>, r: Option<Node>, lib: Lib)
    requires Eval(env, Some(BinaryExpression(op, l, r))).Some?
    requires Keeps(env, l, lib) && Keeps(env, r, lib)
    ensures Keeps(env, Some(BinaryExpression(op, l, r)), lib)
  {
    OptimizerProperties.BinaryStep(op, l, r, lib);
    var ml, mr := OptimizeExpression(l, lib).value.node, OptimizeExpression(r, lib).value.node;
    assert Eval(env, Some(BinaryExpression(op, ml, mr))) == Eval(env, Some(BinaryExpression(op, l, r)));
    BinaryKeepsValue(env, op, ml, mr, lib);
    assert "" + "" == "";
  }

  /** On the arithmetic fragment, optimizing succeeds, writes nothing, and yields an
      expression with the same value in every environment. */
  lemma {:induction false} OptimizePreservesValue(env: string -> real, n: Option<Node>, lib: Lib)
    requires Eval(env, n).Some?
    ensures OptimizeExpression(n, lib).Ok?
    ensures OptimizeExpression(n, lib).value.output == ""
    ensures Eval(env, OptimizeExpression(n, lib).value.node) == Eval(env, n)
    decreases n
  {
    match n
    case Some(UnaryExpression(op, a)) =>
      OptimizePreservesValue(env, a, lib);
      UnaryCase(env, op, a, lib);
    case Some(BinaryExpression(op, l, r)) =>
      OptimizePreservesValue(env, l, lib);
      OptimizePreservesValue(env, r, lib);
      BinaryCase(env, op, l, r, lib);
    case Some(Literal(_)) =>
    case Some(Identifier(_)) =>
  }

  /** The grammar folds left to right without precedence: `1 + 2 * 3` is parsed as
      `(1 + 2) * 3` and optimizes to the literal 9. */
  lemma LeftToRightExample(lib: Lib)
    ensures var one, two, three := Some(Literal(Number(1.0))), Some(Literal(Number(2.0))), Some(Literal(Number(3.0)));
            OptimizeExpression(Some(BinaryExpression("*", Some(BinaryExpression("+", one, two)), three)), lib)
            == Ok(Optimized(Some(Literal(Number(9.0))), ""))
  {
    var one, two, three := Some(Literal(Number(1.0))), Some(Literal(Number(2.0))), Some(Literal(Number(3.0)));
    var sum := Some(BinaryExpression("+", one, two));
    assert "" + "" == "";
    OptimizerProperties.BinaryStep("+", one, two, lib);
    assert OptimizeExpression(sum, lib) == Ok(Optimized(Some(Literal(Number(3.0))), ""));
    OptimizerProperties.BinaryStep("*", sum, three, lib);
  }
}
