/** The recursive-descent parser (`src/parser.cpp`).

    The C++ parser builds nodes that carry nothing but their tag and discards every child,
    so a parse is modelled as a recogniser: from a token sequence and a cursor it yields the
    tag of the node built and the cursor after it, or the message of the error thrown. */
module Parser {
  import opened Wrappers
  import opened Ast
  import opened Tokens

  /** The tag of the node a parsing routine returns and where it left the cursor. */
  datatype Parsed = Parsed(tag: NodeType, pos: nat)

  const UnexpectedToken: string := "Unexpected token: "
  const ExpectedArgumentComma: string := "Expected ',' between function arguments"
  const ExpectedVariableName: string := "Expected variable name"
  const ExpectedFunctionName: string := "Expected function name"
  const ExpectedOpenParen: string := "Expected '(' after function name"
  const ExpectedParameterComma: string := "Expected ',' between parameters"
  const ExpectedParameterName: string := "Expected parameter name"
  const ExpectedOpenBrace: string := "Expected '{' after function parameters"

  /** Every message the parser throws. */
  predicate IsParseError(msg: string) {
    || UnexpectedToken <= msg
    || msg in {ExpectedArgumentComma, ExpectedVariableName, ExpectedFunctionName, ExpectedOpenParen,
               ExpectedParameterComma, ExpectedParameterName, ExpectedOpenBrace}
  }

  // ---------------------------------------------------------------------------------------
  // The cursor
  // ---------------------------------------------------------------------------------------

  /** `peek()`: the token under the cursor, or an end-of-input marker past the end. */
  function Peek(ts: seq<Token>, pos: nat): (t: Token)
    ensures pos >= |ts| ==> t == EndOfInput
    ensures pos < |ts| ==> t == ts[pos]
  {
    if pos >= |ts| then EndOfInput else ts[pos]
  }

  /** The cursor after `advance()`, which never moves past the end. */
  function Advance(ts: seq<Token>, pos: nat): (p: nat)
    requires pos <= |ts|
    ensures p <= |ts|
    ensures pos < |ts| ==> p == pos + 1
    ensures pos == |ts| ==> p == pos
  {
    if pos < |ts| then pos + 1 else pos
  }

  /** `match(kind)`: whether the token under the cursor has that kind, and the cursor after
      consuming it if it does. */
  function Match(ts: seq<Token>, pos: nat, kind: TokenType): (r: (bool, nat))
    requires pos <= |ts|
    ensures r.0 <==> Peek(ts, pos).kind == kind
    ensures r.0 ==> kind != EOF_TOKEN ==> r.1 == pos + 1
    ensures !r.0 ==> r.1 == pos
  {
    if Peek(ts, pos).kind == kind then (true, Advance(ts, pos)) else (false, pos)
  }

  /** The token is the operator `text`. */
  predicate IsOperator(t: Token, text: string) {
    t.kind == OPERATOR && t.text == text
  }

  /** The operators `parse_expression` chains: one precedence level, left to right. */
  predicate IsArithmetic(t: Token) {
    t.kind == OPERATOR && t.text in {"+", "-", "*", "/"}
  }

  /** No end-of-input token lies in `ts[from..to]`: the parser did not read past the end. */
  predicate NoEndBetween(ts: seq<Token>, from: nat, to: nat) {
    forall k :: from <= k < to && k < |ts| ==> ts[k].kind != EOF_TOKEN
  }

  /** An optional `;`. */
  function SkipSemicolon(ts: seq<Token>, pos: nat): (p: nat)
    requires pos <= |ts|
    ensures pos <= p <= |ts|
    ensures p == if IsOperator(Peek(ts, pos), ";") then pos + 1 else pos
    ensures NoEndBetween(ts, pos, p)
  {
    if IsOperator(Peek(ts, pos), ";") then Advance(ts, pos) else pos
  }

  // ---------------------------------------------------------------------------------------
  // Expressions
  // ---------------------------------------------------------------------------------------

  /** `parse_primary()`: a literal, an identifier, or a call of an identifier. On success
      the cursor has moved. */
  function ParsePrimary(ts: seq<Token>, pos: nat): (r: Result<Parsed>)
    requires pos <= |ts|
    decreases |ts| - pos, 0
    ensures r.Ok? ==> pos < r.value.pos <= |ts|
    ensures r.Ok? ==> r.value.tag in {LITERAL, NodeType.IDENTIFIER, CALL_EXPRESSION}
    ensures r.Ok? && r.value.tag == LITERAL <==> Peek(ts, pos).kind in {NUMBER, STRING}
    ensures r.Ok? && r.value.tag == LITERAL ==> r.value.pos == pos + 1
    ensures (r.Ok? && r.value.tag == NodeType.IDENTIFIER) <==>
            (Peek(ts, pos).kind == TokenType.IDENTIFIER && !IsOperator(Peek(ts, pos + 1), "("))
    ensures r.Ok? && r.value.tag == NodeType.IDENTIFIER ==> r.value.pos == pos + 1
    ensures r.Ok? && r.value.tag == CALL_EXPRESSION ==>
            Peek(ts, pos).kind == TokenType.IDENTIFIER && IsOperator(Peek(ts, pos + 1), "(")
            && IsOperator(Peek(ts, r.value.pos - 1), ")")
    ensures Peek(ts, pos).kind !in {NUMBER, STRING, TokenType.IDENTIFIER} ==>
            r == Err(UnexpectedToken + Peek(ts, pos).text)
    ensures r.Err? ==> IsParseError(r.error)
    ensures r.Ok? ==> NoEndBetween(ts, pos, r.value.pos)
  {
    var token := Peek(ts, pos);
    var next := Advance(ts, pos);
    match token.kind
    case NUMBER => Ok(Parsed(LITERAL, next))
    case STRING => Ok(Parsed(LITERAL, next))
    case IDENTIFIER =>
      if IsOperator(Peek(ts, next), "(") then
        var after :- ParseArguments(ts, Advance(ts, next), true);
        Ok(Parsed(CALL_EXPRESSION, after))
      else
        Ok(Parsed(NodeType.IDENTIFIER, next))
    case _ => Err(UnexpectedToken + token.text)
  }

  /** The argument list of a call after its `(`: expressions separated by `,` up to the
      `)`, which is consumed; `first` tells that no argument was read yet. */
  function ParseArguments(ts: seq<Token>, pos: nat, first: bool): (r: Result<nat>)
    requires pos <= |ts|
    decreases |ts| - pos, 3
    ensures r.Ok? ==> pos < r.value <= |ts| && IsOperator(Peek(ts, r.value - 1), ")")
    ensures r.Err? ==> IsParseError(r.error)
    ensures r.Ok? ==> NoEndBetween(ts, pos, r.value)
    // a `)` closes the list
    ensures IsOperator(Peek(ts, pos), ")") ==> r == Ok(pos + 1)
    // after an argument, anything but `,` or `)` is the missing-comma error
    ensures !first && !IsOperator(Peek(ts, pos), ")") && !IsOperator(Peek(ts, pos), ",") ==>
            r == Err(ExpectedArgumentComma)
    // otherwise an argument is due, and its error is the list's error
    ensures var start := if first then pos else pos + 1;
            !IsOperator(Peek(ts, pos), ")") && (first || IsOperator(Peek(ts, pos), ",")) ==>
              start <= |ts| && (ParseExpression(ts, start).Err? ==> r == Err(ParseExpression(ts, start).error))
  {
    if IsOperator(Peek(ts, pos), ")") then Ok(Advance(ts, pos))
    else if !first && !IsOperator(Peek(ts, pos), ",") then Err(ExpectedArgumentComma)
    else
      var start := if first then pos else Advance(ts, pos);
      var argument :- ParseExpression(ts, start);
      ParseArguments(ts, argument.pos, false)
  }

  /** `parse_expression()`: a primary, then `(operator primary)*` over `+ - * /`. */
  function ParseExpression(ts: seq<Token>, pos: nat): (r: Result<Parsed>)
    requires pos <= |ts|
    decreases |ts| - pos, 2
    ensures r.Ok? ==> pos < r.value.pos <= |ts|
    ensures r.Ok? ==> r.value.tag in {LITERAL, NodeType.IDENTIFIER, CALL_EXPRESSION, BINARY_EXPRESSION}
    // the loop stops only where no operator of its level follows
    ensures r.Ok? ==> !IsArithmetic(Peek(ts, r.value.pos))
    ensures r.Err? ==> IsParseError(r.error)
    ensures r.Ok? ==> NoEndBetween(ts, pos, r.value.pos)
  {
    var left :- ParsePrimary(ts, pos);
    ParseOperations(ts, left)
  }

  /** The loop of `parse_expression()` once `left` was parsed: a binary node replaces the
      left operand for each operator read. */
  function ParseOperations(ts: seq<Token>, left: Parsed): (r: Result<Parsed>)
    requires left.pos <= |ts|
    decreases |ts| - left.pos, 1
    ensures r.Ok? ==> left.pos <= r.value.pos <= |ts|
    ensures r.Ok? ==> r.value.tag == if IsArithmetic(Peek(ts, left.pos)) then BINARY_EXPRESSION else left.tag
    ensures r.Ok? ==> !IsArithmetic(Peek(ts, r.value.pos))
    ensures !IsArithmetic(Peek(ts, left.pos)) ==> r == Ok(left)
    ensures r.Err? ==> IsParseError(r.error)
    ensures r.Ok? ==> NoEndBetween(ts, left.pos, r.value.pos)
  {
    if IsArithmetic(Peek(ts, left.pos)) then
      var right :- ParsePrimary(ts, Advance(ts, left.pos));
      ParseOperations(ts, Parsed(BINARY_EXPRESSION, right.pos))
    else
      Ok(left)
  }

  // ---------------------------------------------------------------------------------------
  // Statements
  // ---------------------------------------------------------------------------------------

  /** `parse_statement()`: a declaration or `return` after its keyword, otherwise an
      expression; each with an optional `;`. */
  function ParseStatement(ts: seq<Token>, pos: nat): (r: Result<Parsed>)
    requires pos <= |ts|
    decreases |ts| - pos, 5
    ensures r.Ok? ==> pos < r.value.pos <= |ts|
    ensures r.Err? ==> IsParseError(r.error)
    ensures r.Ok? ==> NoEndBetween(ts, pos, r.value.pos)
  {
    var token := Peek(ts, pos);
    if token.kind == KEYWORD && token.text in {"let", "const", "var"} then
      ParseVariableDeclaration(ts, Advance(ts, pos))
    else if token.kind == KEYWORD && token.text == "function" then
      ParseFunctionDeclaration(ts, Advance(ts, pos))
    else if token.kind == KEYWORD && token.text == "return" then
      var e :- ParseExpression(ts, Advance(ts, pos));
      Ok(Parsed(RETURN_STATEMENT, SkipSemicolon(ts, e.pos)))
    else
      var e :- ParseExpression(ts, pos);
      Ok(Parsed(e.tag, SkipSemicolon(ts, e.pos)))
  }

  /** `parse_variable_declaration()` after the keyword: a name, an optional `= expression`
      and an optional `;`. */
  function ParseVariableDeclaration(ts: seq<Token>, pos: nat): (r: Result<Parsed>)
    requires pos <= |ts|
    decreases |ts| - pos, 4
    ensures r.Ok? ==> pos < r.value.pos <= |ts| && r.value.tag == VARIABLE_DECLARATION
    ensures Peek(ts, pos).kind != TokenType.IDENTIFIER ==> r == Err(ExpectedVariableName)
    ensures r.Err? ==> IsParseError(r.error)
    ensures r.Ok? ==> NoEndBetween(ts, pos, r.value.pos)
    // without `=`, the name and an optional `;`
    ensures Peek(ts, pos).kind == TokenType.IDENTIFIER && !IsOperator(Peek(ts, pos + 1), "=") ==>
            r == Ok(Parsed(VARIABLE_DECLARATION, SkipSemicolon(ts, pos + 1)))
    // with `=`, the initializer, whose error is the declaration's, then an optional `;`
    ensures Peek(ts, pos).kind == TokenType.IDENTIFIER && IsOperator(Peek(ts, pos + 1), "=") ==>
            pos + 2 <= |ts| && (ParseExpression(ts, pos + 2).Err? ==> r == Err(ParseExpression(ts, pos + 2).error))
    ensures Peek(ts, pos).kind == TokenType.IDENTIFIER && IsOperator(Peek(ts, pos + 1), "=") ==>
            pos + 2 <= |ts| && (ParseExpression(ts, pos + 2).Ok? ==>
              r == Ok(Parsed(VARIABLE_DECLARATION, SkipSemicolon(ts, ParseExpression(ts, pos + 2).value.pos))))
  {
    if Peek(ts, pos).kind != TokenType.IDENTIFIER then Err(ExpectedVariableName)
    else
      var afterName := Advance(ts, pos);
      assert afterName == pos + 1;
      if !IsOperator(Peek(ts, afterName), "=") then
        Ok(Parsed(VARIABLE_DECLARATION, SkipSemicolon(ts, afterName)))
      else
        var init :- ParseExpression(ts, Advance(ts, afterName));
        Ok(Parsed(VARIABLE_DECLARATION, SkipSemicolon(ts, init.pos)))
  }

  /** `parse_function_declaration()` after the keyword: a name, `(`, parameter names
      separated by `,`, `)`, `{`, statements, `}`. */
  function ParseFunctionDeclaration(ts: seq<Token>, pos: nat): (r: Result<Parsed>)
    requires pos <= |ts|
    decreases |ts| - pos, 4
    ensures r.Ok? ==> pos < r.value.pos <= |ts| && r.value.tag == FUNCTION_DECLARATION
    ensures r.Ok? ==> IsOperator(Peek(ts, r.value.pos - 1), "}")
    ensures Peek(ts, pos).kind != TokenType.IDENTIFIER ==> r == Err(ExpectedFunctionName)
    ensures Peek(ts, pos).kind == TokenType.IDENTIFIER && !IsOperator(Peek(ts, pos + 1), "(") ==>
            r == Err(ExpectedOpenParen)
    ensures r.Err? ==> IsParseError(r.error)
    ensures r.Ok? ==> NoEndBetween(ts, pos, r.value.pos)
  {
    var (named, afterName) := Match(ts, pos, TokenType.IDENTIFIER);
    if !named then Err(ExpectedFunctionName)
    else if !IsOperator(Peek(ts, afterName), "(") then Err(ExpectedOpenParen)
    else
      var afterParams :- ParseParameters(ts, Advance(ts, afterName), true);
      if !IsOperator(Peek(ts, afterParams), "{") then Err(ExpectedOpenBrace)
      else
        var end :- ParseBody(ts, Advance(ts, afterParams));
        Ok(Parsed(FUNCTION_DECLARATION, end))
  }

  /** After the name and `(` of a function declaration: the parameter list's error is the
      declaration's; a list not followed by `{` is the missing-brace error; otherwise the
      declaration succeeds exactly when its body does, and ends where the body ends. */
  lemma FunctionDeclarationSteps(ts: seq<Token>, pos: nat)
    requires pos <= |ts|
    ensures Peek(ts, pos).kind == TokenType.IDENTIFIER && IsOperator(Peek(ts, pos + 1), "(") ==>
            pos + 2 <= |ts| &&
            var r := ParseFunctionDeclaration(ts, pos);
            match ParseParameters(ts, pos + 2, true)
            case Err(e) => r == Err(e)
            case Ok(q) =>
              if !IsOperator(Peek(ts, q), "{") then r == Err(ExpectedOpenBrace)
              else q + 1 <= |ts| && (r.Ok? <==> ParseBody(ts, q + 1).Ok?)
                   && (r.Ok? ==> r.value.pos == ParseBody(ts, q + 1).value)
  {
    if Peek(ts, pos).kind == TokenType.IDENTIFIER && IsOperator(Peek(ts, pos + 1), "(") {
      assert Match(ts, pos, TokenType.IDENTIFIER) == (true, pos + 1);
      assert Advance(ts, pos + 1) == pos + 2;
    }
  }

  /** The parameter list after its `(`: names separated by `,` up to the `)`, which is
      consumed; `first` tells that no parameter was read yet. */
  function ParseParameters(ts: seq<Token>, pos: nat, first: bool): (r: Result<nat>)
    requires pos <= |ts|
    decreases |ts| - pos
    ensures r.Ok? ==> pos < r.value <= |ts| && IsOperator(Peek(ts, r.value - 1), ")")
    ensures r.Err? ==> r.error in {ExpectedParameterComma, ExpectedParameterName}
    ensures r.Ok? ==> NoEndBetween(ts, pos, r.value)
    // a `)` closes the list
    ensures IsOperator(Peek(ts, pos), ")") ==> r == Ok(pos + 1)
    // after a name, anything but `,` or `)` is the missing-comma error
    ensures !first && !IsOperator(Peek(ts, pos), ")") && !IsOperator(Peek(ts, pos), ",") ==>
            r == Err(ExpectedParameterComma)
    // where a name is due, any other token is the missing-name error
    ensures var start := if first then pos else pos + 1;
            !IsOperator(Peek(ts, pos), ")") && (first || IsOperator(Peek(ts, pos), ",")) ==>
              start <= |ts| && (Peek(ts, start).kind != TokenType.IDENTIFIER ==> r == Err(ExpectedParameterName))
  {
    if IsOperator(Peek(ts, pos), ")") then Ok(Advance(ts, pos))
    else if !first && !IsOperator(Peek(ts, pos), ",") then Err(ExpectedParameterComma)
    else
      var start := if first then pos else Advance(ts, pos);
      var (named, next) := Match(ts, start, TokenType.IDENTIFIER);
      if !named then Err(ExpectedParameterName)
      else ParseParameters(ts, next, false)
  }

  /** The list of parameter names `parse_function_declaration()` fills, as written: once
      `match` has consumed a name, `peek()` is the token after it, so the entry recorded for
      each parameter is the `,` or `)` that follows its name. (The list is never used.) */
  function RecordedParameters(ts: seq<Token>, pos: nat, first: bool): (r: Result<seq<string>>)
    requires pos <= |ts|
    decreases |ts| - pos
    ensures r.Ok? <==> ParseParameters(ts, pos, first).Ok?
    ensures r.Err? ==> r.error == ParseParameters(ts, pos, first).error
    ensures r.Ok? ==> forall k :: 0 <= k < |r.value| ==> r.value[k] in {",", ")"}
  {
    if IsOperator(Peek(ts, pos), ")") then Ok([])
    else if !first && !IsOperator(Peek(ts, pos), ",") then Err(ExpectedParameterComma)
    else
      var start := if first then pos else Advance(ts, pos);
      var (named, next) := Match(ts, start, TokenType.IDENTIFIER);
      if !named then Err(ExpectedParameterName)
      else
        var rest :- RecordedParameters(ts, next, false);
        Ok([Peek(ts, next).text] + rest)
  }

  /** The texts of the identifier tokens of `ts`, in order. */
  function Identifiers(ts: seq<Token>): seq<string>
    decreases |ts|
  {
    if |ts| == 0 then []
    else (if ts[0].kind == TokenType.IDENTIFIER then [ts[0].text] else []) + Identifiers(ts[1..])
  }

  /** The parameter names as evidently intended: the text of each name token `match`
      consumed. */
  function ParameterNames(ts: seq<Token>, pos: nat, first: bool): (r: Result<seq<string>>)
    requires pos <= |ts|
    decreases |ts| - pos
    ensures r.Ok? <==> ParseParameters(ts, pos, first).Ok?
    ensures r.Err? ==> r.error == ParseParameters(ts, pos, first).error
    ensures r.Ok? ==> |r.value| == |RecordedParameters(ts, pos, first).value|
  {
    if IsOperator(Peek(ts, pos), ")") then Ok([])
    else if !first && !IsOperator(Peek(ts, pos), ",") then Err(ExpectedParameterComma)
    else
      var start := if first then pos else Advance(ts, pos);
      var (named, next) := Match(ts, start, TokenType.IDENTIFIER);
      if !named then Err(ExpectedParameterName)
      else
        var rest :- ParameterNames(ts, next, false);
        Ok([Peek(ts, start).text] + rest)
  }

  /** A function's statements after its `{`, up to the `}`, which is consumed. */
  function ParseBody(ts: seq<Token>, pos: nat): (r: Result<nat>)
    requires pos <= |ts|
    decreases |ts| - pos, 6
    ensures r.Ok? ==> pos < r.value <= |ts| && IsOperator(Peek(ts, r.value - 1), "}")
    ensures r.Err? ==> IsParseError(r.error)
    ensures r.Ok? ==> NoEndBetween(ts, pos, r.value)
  {
    if IsOperator(Peek(ts, pos), "}") then Ok(Advance(ts, pos))
    else
      var statement :- ParseStatement(ts, pos);
      ParseBody(ts, statement.pos)
  }

  // ---------------------------------------------------------------------------------------
  // Programs
  // ---------------------------------------------------------------------------------------

  /** The loop of `parse()`: statements until the end-of-input token. */
  function ParseStatements(ts: seq<Token>, pos: nat): (r: Result<nat>)
    requires pos <= |ts|
    decreases |ts| - pos
    ensures r.Ok? ==> pos <= r.value <= |ts| && Peek(ts, r.value).kind == EOF_TOKEN
    ensures r.Err? ==> IsParseError(r.error)
    ensures r.Ok? ==> NoEndBetween(ts, pos, r.value)
  {
    if Peek(ts, pos).kind == EOF_TOKEN then Ok(pos)
    else
      var statement :- ParseStatement(ts, pos);
      ParseStatements(ts, statement.pos)
  }

  /** `parse()`: whatever the statements were, a successful parse returns a plain node
      tagged `PROGRAM`. */
  function Parse(ts: seq<Token>): (r: Result<Node>)
    ensures r.Ok? <==> ParseStatements(ts, 0).Ok?
    ensures r.Ok? ==> r.value == Base(PROGRAM) && Tag(r.value) == PROGRAM
    ensures r.Err? ==> IsParseError(r.error)
  {
    var _ :- ParseStatements(ts, 0);
    Ok(Base(PROGRAM))
  }
}
