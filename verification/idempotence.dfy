/** A second optimization pass leaves the tree of the first one as it is, provided no call's
    callee can turn into `console.log` during the first pass.

    That proviso is needed: `(console.log + 0)(5)` becomes `console.log(5)` in the first
    pass (the callee `console.log + 0` simplifies to `console.log`), and only the second pass
    evaluates it, emptying its argument slot (`LogAliasNotIdempotent`). */
module Idempotence {
  import opened Wrappers
  import opened Ast
  import opened Host
  import opened Optimizer
  import OptimizerProperties

  /** A `console.log` member occurs in the expression, outside the statements. */
  predicate MentionsLog(n: Option<Node>)
    decreases n
  {
    match n
    case None => false
    case Some(node) =>
      || IsConsoleLog(n)
      || (match node
          case UnaryExpression(_, a) => MentionsLog(a)
          case BinaryExpression(_, l, r) => MentionsLog(l) || MentionsLog(r)
          case CallExpression(c, args) => MentionsLog(c) || exists i :: 0 <= i < |args| && MentionsLog(args[i])
          case MemberExpression(o, _) => MentionsLog(o)
          case _ => false)
  }

  /** Every call the optimizer rewrites either is `console.log` already or has a callee in
      which `console.log` does not occur. */
  predicate CalleesClean(n: Option<Node>)
    decreases n
  {
    match n
    case None => true
    case Some(node) =>
      match node
      case UnaryExpression(_, a) => CalleesClean(a)
      case BinaryExpression(_, l, r) => CalleesClean(l) && CalleesClean(r)
      case CallExpression(c, args) =>
        || IsConsoleLog(c)
        || (&& !MentionsLog(c) && CalleesClean(c)
            && forall i :: 0 <= i < |args| ==> CalleesClean(args[i]))
      case _ => true
  }

  /** No rule of the optimizer applies anywhere in the expression. */
  predicate Stable(n: Option<Node>, lib: Lib)
    decreases n
  {
    match n
    case None => true
    case Some(node) =>
      match node
      case UnaryExpression(op, a) => Stable(a, lib) && OptimizeUnary(op, a, lib) == n
      case BinaryExpression(_, l, r) =>
        && Stable(l, lib) && Stable(r, lib)
        && !(IsLiteral(l) && IsLiteral(r))
        && DeadCodeElimination(node) == n
      case CallExpression(c, args) =>
        if IsConsoleLog(c) then forall i :: 0 <= i < |args| ==> args[i].None?
        else !MentionsLog(c) && Stable(c, lib) && forall i :: 0 <= i < |args| ==> Stable(args[i], lib)
      case _ => true
  }

  // ---------------------------------------------------------------------------------------
  // The optimizer never creates a `console.log` member
  // ---------------------------------------------------------------------------------------

  lemma {:induction false} NoLogPreserved(n: Option<Node>, lib: Lib)
    requires !MentionsLog(n) && OptimizeExpression(n, lib).Ok?
    ensures !MentionsLog(OptimizeExpression(n, lib).value.node)
    decreases n, 1
  {
    match n
    case None =>
    case Some(node) =>
      match node {
        case UnaryExpression(op, a) =>
          NoLogPreserved(a, lib);
          OptimizerProperties.UnaryStep(op, a, lib);
        case BinaryExpression(op, l, r) =>
          NoLogPreserved(l, lib);
          NoLogPreserved(r, lib);
          OptimizerProperties.BinaryStep(op, l, r, lib);
          var ml, mr := OptimizeExpression(l, lib).value.node, OptimizeExpression(r, lib).value.node;
          assert !MentionsLog(Some(BinaryExpression(op, ml, mr)));
        case CallExpression(c, args) =>
          NoLogPreserved(c, lib);
          ArgumentsNoLog(node, 0, lib);
          var mc := OptimizeExpression(c, lib).value.node;
          var margs := OptimizeArguments(node, 0, lib).value.nodes;
          assert !MentionsLog(Some(CallExpression(mc, margs)));
        case _ =>
      }
  }

  lemma {:induction false} ArgumentsNoLog(call: Node, i: nat, lib: Lib)
    requires call.CallExpression? && i <= |call.arguments|
    requires forall k :: 0 <= k < |call.arguments| ==> !MentionsLog(call.arguments[k])
    requires OptimizeArguments(call, i, lib).Ok?
    ensures var nodes := OptimizeArguments(call, i, lib).value.nodes;
            forall k :: 0 <= k < |nodes| ==> !MentionsLog(nodes[k])
    decreases call, |call.arguments| - i
  {
    if i < |call.arguments| {
      assert call.arguments[i] in call.arguments;
      NoLogPreserved(call.arguments[i], lib);
      ArgumentsNoLog(call, i + 1, lib);
    }
  }

  // ---------------------------------------------------------------------------------------
  // What one pass returns is stable
  // ---------------------------------------------------------------------------------------

  lemma {:induction false} ResultStable(n: Option<Node>, lib: Lib)
    requires CalleesClean(n) && OptimizeExpression(n, lib).Ok?
    ensures Stable(OptimizeExpression(n, lib).value.node, lib)
    decreases n, 1
  {
    match n
    case None =>
    case Some(node) =>
      match node {
        case UnaryExpression(op, a) =>
          ResultStable(a, lib);
          OptimizerProperties.UnaryStep(op, a, lib);
          var m := OptimizeExpression(a, lib).value.node;
          var u := OptimizeUnary(op, m, lib);
          if m.Some? && m.value.UnaryExpression? && Collapses(op, m.value.op) {
            assert u == m.value.argument;
          } else if !IsLiteral(m) {
            assert u == Some(UnaryExpression(op, m));
          }
        case BinaryExpression(op, l, r) =>
          ResultStable(l, lib);
          ResultStable(r, lib);
          OptimizerProperties.BinaryStep(op, l, r, lib);
          var ml, mr := OptimizeExpression(l, lib).value.node, OptimizeExpression(r, lib).value.node;
          var folded := ConstantFolding(op, ml, mr, lib).value;
          var d := DeadCodeElimination(folded);
          if !(IsLiteral(ml) && IsLiteral(mr)) && d == Some(folded) {
            assert Stable(Some(folded), lib);
          }
        case CallExpression(c, args) =>
          if IsConsoleLog(c) {
            assert Stable(Some(CallExpression(c, Emptied(|args|))), lib);
          } else {
            ResultStable(c, lib);
            NoLogPreserved(c, lib);
            ArgumentsStable(node, 0, lib);
          }
        case _ =>
      }
  }

  lemma {:induction false} ArgumentsStable(call: Node, i: nat, lib: Lib)
    requires call.CallExpression? && i <= |call.arguments|
    requires forall k :: 0 <= k < |call.arguments| ==> CalleesClean(call.arguments[k])
    requires OptimizeArguments(call, i, lib).Ok?
    ensures var nodes := OptimizeArguments(call, i, lib).value.nodes;
            forall k :: 0 <= k < |nodes| ==> Stable(nodes[k], lib)
    decreases call, |call.arguments| - i
  {
    if i < |call.arguments| {
      assert call.arguments[i] in call.arguments;
      ResultStable(call.arguments[i], lib);
      ArgumentsStable(call, i + 1, lib);
    }
  }

  // ---------------------------------------------------------------------------------------
  // A stable expression is a fixed point
  // ---------------------------------------------------------------------------------------

  lemma {:induction false} StableFixed(n: Option<Node>, lib: Lib)
    requires Stable(n, lib)
    ensures OptimizeExpression(n, lib).Ok? && OptimizeExpression(n, lib).value.node == n
    decreases n, 1
  {
    match n
    case None =>
    case Some(node) =>
      match node {
        case UnaryExpression(op, a) =>
          StableFixed(a, lib);
          OptimizerProperties.UnaryStep(op, a, lib);
        case BinaryExpression(op, l, r) =>
          StableFixed(l, lib);
          StableFixed(r, lib);
          OptimizerProperties.BinaryStep(op, l, r, lib);
        case CallExpression(c, args) =>
          if IsConsoleLog(c) {
            EmptyLogArguments(node, 0, lib);
            assert Emptied(|args|) == args;
          } else {
            StableFixed(c, lib);
            ArgumentsFixed(node, 0, lib);
            assert args[0..] == args;
          }
        case _ =>
      }
  }

  lemma {:induction false} ArgumentsFixed(call: Node, i: nat, lib: Lib)
    requires call.CallExpression? && i <= |call.arguments|
    requires forall k :: 0 <= k < |call.arguments| ==> Stable(call.arguments[k], lib)
    ensures OptimizeArguments(call, i, lib).Ok?
    ensures OptimizeArguments(call, i, lib).value.nodes == call.arguments[i..]
    decreases call, |call.arguments| - i
  {
    if i < |call.arguments| {
      assert call.arguments[i] in call.arguments;
      StableFixed(call.arguments[i], lib);
      ArgumentsFixed(call, i + 1, lib);
      assert call.arguments[i..] == [call.arguments[i]] + call.arguments[i + 1..];
    }
  }

  lemma {:induction false} EmptyLogArguments(call: Node, i: nat, lib: Lib)
    requires call.CallExpression? && i <= |call.arguments|
    requires forall k :: 0 <= k < |call.arguments| ==> call.arguments[k].None?
    ensures LogArguments(call, i, lib).Ok?
    decreases |call.arguments| - i
  {
    if i < |call.arguments| {
      EmptyLogArguments(call, i + 1, lib);
    }
  }

  // ---------------------------------------------------------------------------------------
  // Idempotence
  // ---------------------------------------------------------------------------------------

  /** Optimizing the result of an optimization succeeds and returns that result unchanged
      (it may write the text of the `console.log` calls again). */
  lemma Idempotent(n: Option<Node>, lib: Lib)
    requires CalleesClean(n) && OptimizeExpression(n, lib).Ok?
    ensures var m := OptimizeExpression(n, lib).value.node;
            OptimizeExpression(m, lib).Ok? && OptimizeExpression(m, lib).value.node == m
  {
    ResultStable(n, lib);
    StableFixed(OptimizeExpression(n, lib).value.node, lib);
  }

  /** Without the proviso the second pass can still rewrite: `(console.log + 0)(5)`. */
  lemma LogAliasNotIdempotent(lib: Lib)
    ensures var log := Some(MemberExpression(Some(Identifier("console")), "log"));
            var five := Some(Literal(Number(5.0)));
            var n := Some(CallExpression(Some(BinaryExpression("+", log, Some(Literal(Number(0.0))))), [five]));
            && OptimizeExpression(n, lib).Ok?
            && OptimizeExpression(n, lib).value.node == Some(CallExpression(log, [five]))
            && OptimizeExpression(Some(CallExpression(log, [five])), lib).Ok?
            && OptimizeExpression(Some(CallExpression(log, [five])), lib).value.node
               == Some(CallExpression(log, [None]))
  {
    var log := Some(MemberExpression(Some(Identifier("console")), "log"));
    var zero := Some(Literal(Number(0.0)));
    var five := Some(Literal(Number(5.0)));
    var callee := Some(BinaryExpression("+", log, zero));
    var call := CallExpression(callee, [five]);
    OptimizerProperties.BinaryStep("+", log, zero, lib);
    assert OptimizeExpression(callee, lib).value.node == log;
    assert OptimizeArguments(call, 1, lib) == Ok(OptimizedList([], ""));
    assert OptimizeArguments(call, 0, lib).value.nodes == [five];
    assert Emptied(1) == [None];
    var logCall := CallExpression(log, [five]);
    assert LogArguments(logCall, 1, lib) == Ok("");
    assert LogArguments(logCall, 0, lib).Ok?;
  }
}
