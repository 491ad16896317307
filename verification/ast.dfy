/** The syntax tree shared by the parser, the optimizer and the renderer (`include/ast.hpp`).

    Every node class of the C++ hierarchy is one constructor of `Node`. A child held by a
    `unique_ptr` is an `Option<Node>`: the optimizer moves children out of nodes it keeps,
    and such a moved-from slot stays in the tree as `None`. */
module Ast {
  import opened Wrappers

  /** The tag every node carries (`NodeType`). */
  datatype NodeType =
    | PROGRAM
    | VARIABLE_DECLARATION
    | FUNCTION_DECLARATION
    | RETURN_STATEMENT
    | BINARY_EXPRESSION
    | CALL_EXPRESSION
    | IDENTIFIER
    | LITERAL
    | UNARY_EXPRESSION
    | MEMBER_EXPRESSION

  /** The payload of a literal, `std::variant<double, std::string, bool>`: exactly one of the
      three kinds at a time. Doubles are modelled as reals (no NaN, no signed zero). */
  datatype Value = Number(n: real) | Str(s: string) | Bool(b: bool)

  /** What a freshly constructed `Literal` holds: the variant's first alternative, 0.0. */
  const Fresh: Value := Number(0.0)

  datatype Node =
      /** a plain `ASTNode` that carries nothing but its tag (what the parser builds) */
    | Base(tag: NodeType)
    | Literal(value: Value)
    | Identifier(name: string)
    | UnaryExpression(op: string, argument: Option<Node>)
    | BinaryExpression(op: string, left: Option<Node>, right: Option<Node>)
    | CallExpression(callee: Option<Node>, arguments: seq<Option<Node>>)
    | MemberExpression(obj: Option<Node>, property: string)
    | ReturnStatement(argument: Option<Node>)
    | VariableDeclaration(name: string, init: Option<Node>)
    | FunctionDeclaration(name: string, params: seq<string>, body: seq<Option<Node>>)

  /** The tag each class sets in its constructor; a plain node keeps the one it was given. */
  function Tag(n: Node): (t: NodeType)
    ensures n.Base? ==> t == n.tag
    ensures !n.Base? ==> t != PROGRAM
  {
    match n
    case Base(tag) => tag
    case Literal(_) => LITERAL
    case Identifier(_) => IDENTIFIER
    case UnaryExpression(_, _) => UNARY_EXPRESSION
    case BinaryExpression(_, _, _) => BINARY_EXPRESSION
    case CallExpression(_, _) => CALL_EXPRESSION
    case MemberExpression(_, _) => MEMBER_EXPRESSION
    case ReturnStatement(_) => RETURN_STATEMENT
    case VariableDeclaration(_, _) => VARIABLE_DECLARATION
    case FunctionDeclaration(_, _, _) => FUNCTION_DECLARATION
  }

  /** Among the node classes (plain nodes aside), the tag identifies the class: two class
      nodes share a tag exactly when they are built by the same constructor. */
  lemma TagIdentifiesClass(a: Node, b: Node)
    requires !a.Base? && !b.Base?
    ensures Tag(a) == Tag(b) <==>
      && (a.Literal? <==> b.Literal?)
      && (a.Identifier? <==> b.Identifier?)
      && (a.UnaryExpression? <==> b.UnaryExpression?)
      && (a.BinaryExpression? <==> b.BinaryExpression?)
      && (a.CallExpression? <==> b.CallExpression?)
      && (a.MemberExpression? <==> b.MemberExpression?)
      && (a.ReturnStatement? <==> b.ReturnStatement?)
      && (a.VariableDeclaration? <==> b.VariableDeclaration?)
      && (a.FunctionDeclaration? <==> b.FunctionDeclaration?)
  {
  }

  /** `n` is present and is a literal. */
  predicate IsLiteral(n: Option<Node>) {
    n.Some? && n.value.Literal?
  }

  /** The number a slot holds when it is a numeric literal: the cases in which
      `std::get<double>` on the slot's literal succeeds. */
  function NumberOf(n: Option<Node>): (r: Option<real>)
    ensures r.Some? <==> IsLiteral(n) && n.value.value.Number?
    ensures r.Some? ==> n == Some(Literal(Number(r.value)))
  {
    if IsLiteral(n) && n.value.value.Number? then Some(n.value.value.n) else None
  }

  /** A sequence of `k` empty slots: what a vector of moved-from pointers looks like. */
  function Emptied(k: nat): (r: seq<Option<Node>>)
    ensures |r| == k
    ensures forall i :: 0 <= i < k ==> r[i].None?
  {
    seq(k, _ => None)
  }
}
