/** Properties of the parser that relate several of its routines, or the parser to the
    lexer. */
module ParserProperties {
  import opened Wrappers
  import opened Ast
  import opened Tokens
  import opened Parser
  import Lexer

  /** The token is the keyword `word`. */
  predicate IsKeyword(t: Token, words: set<string>) {
    t.kind == KEYWORD && t.text in words
  }

  /** An expression is a binary node exactly when an operator of `+ - * /` follows its first
      primary; otherwise it is that primary, cursor included. */
  lemma ExpressionTag(ts: seq<Token>, pos: nat)
    requires pos <= |ts| && ParseExpression(ts, pos).Ok?
    ensures var first := ParsePrimary(ts, pos).value;
            var r := ParseExpression(ts, pos).value;
            && (r.tag == BINARY_EXPRESSION <==> IsArithmetic(Peek(ts, first.pos)))
            && (!IsArithmetic(Peek(ts, first.pos)) ==> r == first)
  {
  }

  /** Which statement a successful `parse_statement()` recognised is decided by the token it
      starts at. */
  lemma StatementDispatch(ts: seq<Token>, pos: nat)
    requires pos <= |ts| && ParseStatement(ts, pos).Ok?
    ensures var t, r := Peek(ts, pos), ParseStatement(ts, pos).value;
            && (r.tag == VARIABLE_DECLARATION <==> IsKeyword(t, {"let", "const", "var"}))
            && (r.tag == FUNCTION_DECLARATION <==> IsKeyword(t, {"function"}))
            && (r.tag == RETURN_STATEMENT <==> IsKeyword(t, {"return"}))
            && (!IsKeyword(t, {"let", "const", "var", "function", "return"}) ==>
                r.tag in {LITERAL, NodeType.IDENTIFIER, CALL_EXPRESSION, BINARY_EXPRESSION})
  {
  }

  /** Any other keyword in statement position is an unexpected token. */
  lemma OtherKeywordFails(ts: seq<Token>, pos: nat)
    requires pos <= |ts|
    requires Peek(ts, pos).kind == KEYWORD
    requires Peek(ts, pos).text !in {"let", "const", "var", "function", "return"}
    ensures ParseStatement(ts, pos) == Err(UnexpectedToken + Peek(ts, pos).text)
  {
  }

  /** `return` must be followed by an expression: `return;` is an error. */
  lemma BareReturnFails(ts: seq<Token>, pos: nat)
    requires pos + 1 < |ts|
    requires IsKeyword(ts[pos], {"return"}) && IsOperator(ts[pos + 1], ";")
    ensures ParseStatement(ts, pos) == Err(UnexpectedToken + ";")
  {
  }

  /** A function body without a closing `}` is an error, not an endless loop. */
  lemma UnterminatedBodyFails(ts: seq<Token>, pos: nat)
    requires pos <= |ts|
    requires forall k :: pos <= k < |ts| ==> !IsOperator(ts[k], "}")
    ensures ParseBody(ts, pos).Err?
  {
  }

  /** The token sequences the lexer produces: one end-of-input token, at the end. */
  predicate EndsOnce(ts: seq<Token>) {
    && |ts| >= 1 && ts[|ts| - 1].kind == EOF_TOKEN
    && forall k :: 0 <= k < |ts| - 1 ==> ts[k].kind != EOF_TOKEN
  }

  /** On such a sequence a successful parse reads every token but the end-of-input one. */
  lemma ConsumesAllTokens(ts: seq<Token>)
    requires EndsOnce(ts) && ParseStatements(ts, 0).Ok?
    ensures ParseStatements(ts, 0).value == |ts| - 1
  {
  }

  /** Lexing then parsing: when both succeed, the parser reads the whole token sequence up to
      its end-of-input token. */
  lemma LexThenParse(source: string)
    ensures var r := Lexer.Tokenize(source);
            r.Ok? && Parse(r.value).Ok? ==> ParseStatements(r.value, 0) == Ok(|r.value| - 1)
  {
    var r := Lexer.Tokenize(source);
    if r.Ok? && Parse(r.value).Ok? {
      Lexer.TokenizeSound(source);
      TerminatedEndsOnce(r.value);
      ConsumesAllTokens(r.value);
    }
  }

  /** Every token sequence the lexer produces ends once. */
  lemma TerminatedEndsOnce(ts: seq<Token>)
    requires Lexer.Terminated(ts)
    ensures EndsOnce(ts)
  {
    assert ts[|ts| - 1].kind == EOF_TOKEN;
  }

  lemma {:induction false} IdentifiersAppend(a: seq<Token>, b: seq<Token>)
    ensures Identifiers(a + b) == Identifiers(a) + Identifiers(b)
    decreases |a|
  {
    if |a| > 0 {
      IdentifiersAppend(a[1..], b);
      assert (a + b)[1..] == a[1..] + b;
    } else {
      assert a + b == b;
    }
  }

  /** Once corrected, the names recorded are exactly the identifiers of the parameter list,
      in order. */
  lemma {:induction false} ParameterNamesInOrder(ts: seq<Token>, pos: nat, first: bool)
    requires pos <= |ts| && ParseParameters(ts, pos, first).Ok?
    ensures ParameterNames(ts, pos, first).value == Identifiers(ts[pos..ParseParameters(ts, pos, first).value])
    decreases |ts| - pos
  {
    var end := ParseParameters(ts, pos, first).value;
    if IsOperator(Peek(ts, pos), ")") {
      assert ts[pos..end] == [ts[pos]];
      assert Identifiers([ts[pos]]) == [] + Identifiers([]);
    } else {
      var start := if first then pos else pos + 1;
      var next := start + 1;
      assert Match(ts, start, TokenType.IDENTIFIER) == (true, next);
      assert ParseParameters(ts, next, false).value == end;
      assert ParameterNames(ts, pos, first).value == [ts[start].text] + ParameterNames(ts, next, false).value;
      ParameterNamesInOrder(ts, next, false);
      assert ts[pos..end] == ts[pos..next] + ts[next..end];
      IdentifiersAppend(ts[pos..next], ts[next..end]);
      NameSpan(ts, pos, first);
    }
  }

  /** The stretch holding one parameter name, after its `,` unless it is the first. */
  lemma NameSpan(ts: seq<Token>, pos: nat, first: bool)
    requires pos + (if first then 1 else 2) <= |ts|
    requires ts[if first then pos else pos + 1].kind == TokenType.IDENTIFIER
    requires !first ==> ts[pos].kind == OPERATOR
    ensures var start := if first then pos else pos + 1;
            Identifiers(ts[pos..start + 1]) == [ts[start].text]
  {
    var start := if first then pos else pos + 1;
    assert Identifiers([ts[start]]) == [ts[start].text] + Identifiers([]);
    if !first {
      assert ts[pos..start + 1] == [ts[pos]] + [ts[start]];
      IdentifiersAppend([ts[pos]], [ts[start]]);
      assert Identifiers([ts[pos]]) == [] + Identifiers([]);
    } else {
      assert ts[pos..start + 1] == [ts[start]];
    }
  }


  // ---------------------------------------------------------------------------------------
  // Examples
  // ---------------------------------------------------------------------------------------

  function Name(s: string): Token { Token(TokenType.IDENTIFIER, s) }
  function Op(s: string): Token { Token(OPERATOR, s) }
  function Num(s: string): Token { Token(NUMBER, s) }

  /** `let x = 1 + 2;` is one variable declaration reading all seven tokens before the end. */
  lemma DeclarationExample()
    ensures var ts := [Token(KEYWORD, "let"), Name("x"), Op("="), Num("1"), Op("+"), Num("2"), Op(";"), EndOfInput];
            && ParseStatement(ts, 0) == Ok(Parsed(VARIABLE_DECLARATION, 7))
            && Parse(ts) == Ok(Base(PROGRAM))
  {
    var ts := [Token(KEYWORD, "let"), Name("x"), Op("="), Num("1"), Op("+"), Num("2"), Op(";"), EndOfInput];
    assert ParsePrimary(ts, 5) == Ok(Parsed(LITERAL, 6));
    assert ParseOperations(ts, Parsed(BINARY_EXPRESSION, 6)) == Ok(Parsed(BINARY_EXPRESSION, 6));
    assert ParseOperations(ts, Parsed(LITERAL, 4)) == Ok(Parsed(BINARY_EXPRESSION, 6));
    assert ParseExpression(ts, 3) == Ok(Parsed(BINARY_EXPRESSION, 6));
    assert ParseVariableDeclaration(ts, 1) == Ok(Parsed(VARIABLE_DECLARATION, 7));
    assert ParseStatements(ts, 7) == Ok(7);
  }

  /** `f(1 2)`: arguments must be separated by commas. */
  lemma MissingCommaExample()
    ensures ParseStatement([Name("f"), Op("("), Num("1"), Num("2"), Op(")"), EndOfInput], 0)
            == Err(ExpectedArgumentComma)
  {
    var ts := [Name("f"), Op("("), Num("1"), Num("2"), Op(")"), EndOfInput];
    assert ParseExpression(ts, 2) == Ok(Parsed(LITERAL, 3));
    assert ParseArguments(ts, 3, false) == Err(ExpectedArgumentComma);
    assert ParseArguments(ts, 2, true) == Err(ExpectedArgumentComma);
    assert ParsePrimary(ts, 0) == Err(ExpectedArgumentComma);
    assert ParseExpression(ts, 0) == Err(ExpectedArgumentComma);
  }

  /** `function f(a b)`: parameters must be separated by commas. */
  lemma ParameterCommaExample()
    ensures var ts := [Token(KEYWORD, "function"), Name("f"), Op("("), Name("a"), Name("b"), Op(")"), EndOfInput];
            ParseStatement(ts, 0) == Err(ExpectedParameterComma)
  {
    var ts := [Token(KEYWORD, "function"), Name("f"), Op("("), Name("a"), Name("b"), Op(")"), EndOfInput];
    assert ParseParameters(ts, 4, false) == Err(ExpectedParameterComma);
    assert ParseParameters(ts, 3, true) == Err(ExpectedParameterComma);
  }

  /** `function f(1)` fails where a parameter name is due. */
  lemma ParameterNameExample()
    ensures var ts := [Token(KEYWORD, "function"), Name("f"), Op("("), Num("1"), Op(")"), EndOfInput];
            ParseStatement(ts, 0) == Err(ExpectedParameterName)
  {
  }

  /** `function f() x` fails for want of the `{` that opens the body. */
  lemma OpenBraceExample()
    ensures var ts := [Token(KEYWORD, "function"), Name("f"), Op("("), Op(")"), Name("x"), EndOfInput];
            ParseStatement(ts, 0) == Err(ExpectedOpenBrace)
  {
  }

  /** `var y;` is a declaration without initializer that consumes its `;`; `let x = ;`
      fails with the initializer's error. */
  lemma DeclarationFormsExample()
    ensures ParseStatement([Token(KEYWORD, "var"), Name("y"), Op(";"), EndOfInput], 0)
            == Ok(Parsed(VARIABLE_DECLARATION, 3))
    ensures ParseStatement([Token(KEYWORD, "let"), Name("x"), Op("="), Op(";"), EndOfInput], 0)
            == Err(UnexpectedToken + ";")
  {
  }

  /** A declaration statement reads exactly what its declaration reads. */
  lemma DeclarationStatement(ts: seq<Token>, pos: nat)
    requires pos < |ts| && IsKeyword(ts[pos], {"let", "const", "var"})
    ensures ParseStatement(ts, pos) == ParseVariableDeclaration(ts, pos + 1)
  {
  }

  /** `return` must be followed by an expression, whose error is the statement's; after
      it, one optional `;`. */
  lemma ReturnStatement(ts: seq<Token>, pos: nat)
    requires pos < |ts| && IsKeyword(ts[pos], {"return"})
    ensures ParseStatement(ts, pos).Ok? <==> ParseExpression(ts, pos + 1).Ok?
    ensures ParseExpression(ts, pos + 1).Err? ==> ParseStatement(ts, pos) == Err(ParseExpression(ts, pos + 1).error)
    ensures ParseExpression(ts, pos + 1).Ok? ==>
            ParseStatement(ts, pos) == Ok(Parsed(RETURN_STATEMENT, SkipSemicolon(ts, ParseExpression(ts, pos + 1).value.pos)))
  {
  }

  /** A `function` statement reads exactly what its declaration reads. */
  lemma FunctionStatement(ts: seq<Token>, pos: nat)
    requires pos < |ts| && IsKeyword(ts[pos], {"function"})
    ensures ParseStatement(ts, pos) == ParseFunctionDeclaration(ts, pos + 1)
  {
  }

  /** `function f(a, b) {}`: as written, the list filled for the parameters holds the
      tokens after the names; corrected, it holds the names. */
  lemma ParameterNamesExample()
    ensures var ts := [Token(KEYWORD, "function"), Name("f"), Op("("), Name("a"), Op(","), Name("b"),
                       Op(")"), Op("{"), Op("}"), EndOfInput];
            && RecordedParameters(ts, 3, true) == Ok([",", ")"])
            && ParameterNames(ts, 3, true) == Ok(["a", "b"])
  {
    var ts := [Token(KEYWORD, "function"), Name("f"), Op("("), Name("a"), Op(","), Name("b"),
               Op(")"), Op("{"), Op("}"), EndOfInput];
    assert Match(ts, 3, TokenType.IDENTIFIER) == (true, 4);
    assert Match(ts, 5, TokenType.IDENTIFIER) == (true, 6);
    assert Peek(ts, 3).text == "a" && Peek(ts, 4).text == "," && Peek(ts, 5).text == "b" && Peek(ts, 6).text == ")";
    assert RecordedParameters(ts, 6, false) == Ok([]);
    assert [")"] + [] == [")"] && [","] + [")"] == [",", ")"];
    assert RecordedParameters(ts, 4, false) == Ok([")"]);
    assert ParameterNames(ts, 6, false) == Ok([]);
    assert ["b"] + [] == ["b"] && ["a"] + ["b"] == ["a", "b"];
    assert ParameterNames(ts, 4, false) == Ok(["b"]);
  }
}
