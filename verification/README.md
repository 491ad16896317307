# A verified model of a small JavaScript-subset compiler core

This project models, in Dafny, the four stages of a small compiler for a JavaScript subset and
proves properties of each:

- the **lexer** (`src/lexer.cpp`) turns source text into tokens ended by one end-of-input token;
- the **parser** (`src/parser.cpp`) is a recursive-descent recogniser over those tokens;
- the **syntax tree** and its `print` renderers (`include/ast.hpp`);
- the **optimizer** (`src/optimizer.cpp`), one bottom-up rewriting pass over the tree:
  constant folding, algebraic simplification, unary simplification, compile-time evaluation
  of `console.log`, a function registry and a narrow inliner.

Modules, one per file:

| module | file | what it holds |
|---|---|---|
| `Wrappers` | `wrappers.dfy` | `Option` and `Result` (with `:-` support) |
| `Host` | `host.dfy` | the C++ routines on `double` left uninterpreted (`pow`, `stod`, `to_string`, stream output), passed as a record of total functions |
| `Ast` | `ast.dfy` | `NodeType`, the literal `Value` variant, `Node`, the tag of each class |
| `Render` | `render.dfy` | the `print` visitors as a function from a node and a depth to lines |
| `Optimizer` | `optimizer.dfy` | every member of the optimizer as a pure function |
| `OptimizerProperties` | `optimizer_properties.dfy` | folding, the algebraic rules, `console.log`, declaring and inlining |
| `Soundness` | `soundness.dfy` | for numbers and names combined by `+ - * /` and unary `-`/`+`, optimizing keeps the value of every expression, against an independent evaluator (the parser's strings and calls lie outside this fragment) |
| `Idempotence` | `idempotence.dfy` | a second pass changes nothing, unless a callee optimizes into `console.log`, as in `(console.log + 0)(5)` |
| `Tokens` | `tokens.dfy` | `TokenType` and `Token` |
| `Lexer` | `lexer.dfy` | the scanner over the unread suffix of the input |
| `Parser` | `parser.dfy` | the recogniser: tokens and a cursor to a node tag and a new cursor, or an error |
| `ParserProperties` | `parser_properties.dfy` | statement dispatch, whole-input parses, lexing then parsing |

Modelling choices:

- A child held by a `unique_ptr` is an `Option<Node>`. The optimizer moves children out of nodes it keeps, and such a
  slot stays in the tree as `None`.
- A fresh `Literal` holds the number 0, the first alternative of its variant. Every fold or unary rewrite that assigns nothing therefore yields 0.
- Doubles are `real`. `std::pow`, `std::stod`, `std::to_string` and the stream's rendering of a double are fields of
  `Host.Lib`, so every property holds whatever those routines compute.
- What `console.log` writes to standard output is returned as text next to the rewritten node. The only exception
  that escapes the optimizer, "Division by zero", is an `Err`.
- The registry `functionMap` is a `map<string, Node>` threaded through `OptimizeDeclaration`.
- The C++ parser builds nodes that carry only their tag and drops every child. A parse is therefore modelled as a tag and a
  cursor, or the message thrown.
- The lexer's state is the unread suffix of the input. `Cur` is NUL when the suffix is empty, as `current_char` is past the end.

Where the design description and the code disagree, the model follows the code:

- The top-level `parse()` loops over statements until the end-of-input token (`src/parser.cpp:31-33`). It does not parse a single statement.
- A primary is a literal, an identifier or a call. There is no member access `a.b` in the grammar (`src/parser.cpp:89-118`): a `.` in
  statement position is an unexpected token.

## Model

| member | source | states |
|---|---|---|
| Ast.Tag | include/ast.hpp:44-163 | every node class sets a tag other than `PROGRAM` in its constructor; a plain node keeps the tag it was given |
| Ast.TagIdentifiesClass | include/ast.hpp:44-163 | two class nodes have the same tag exactly when they were built by the same constructor |
| Ast.NumberOf | src/optimizer.cpp:231-250 | `std::get<double>` on a slot succeeds exactly for a present numeric literal, and yields its number |
| Ast.Emptied | src/optimizer.cpp:27-28 | a vector of `k` moved-from pointers is `k` empty slots |
| Optimizer.Truthy | src/optimizer.cpp:198-209 | a literal is falsy exactly when it is `false`, the number 0 or the empty string |
| Optimizer.ToText | src/optimizer.cpp:211-222 | `toString` spells strings and booleans as `console.log` does, `true` exactly for true; only numbers differ |
| Optimizer.LogText | src/optimizer.cpp:31-37 | the text `console.log` writes for a literal: the string, the stream form of a number, `true` or `false` |
| Optimizer.UnaryValue | src/optimizer.cpp:91-112 | the value stored in the fresh literal replacing `op v`; its cases are stated by `OptimizeUnary` |
| Optimizer.OptimizeUnary | src/optimizer.cpp:87-126 | over a literal the unary always becomes a literal: `!` gives the negated truthiness, `-` negates a number, `+` keeps a number and parses a string, every other pair gives 0; `!!x` and `--x` collapse to `x`; every other node is kept |
| Optimizer.FoldValues | src/optimizer.cpp:133-193 | the only failure is a number divided by the number 0; number arithmetic and comparisons; `&&`/`\|\|` on truthiness when not both numbers; a string on either side of `+` concatenates the texts of both sides; a boolean comes only from a comparison or a logical operator; every unmatched pair gives 0 |
| Optimizer.ConstantFolding | src/optimizer.cpp:128-196 | two literal operands always give a literal or the division error, and the error happens exactly then; otherwise the binary is kept as it is |
| Optimizer.DeadCodeElimination | src/optimizer.cpp:224-352 | the result is the node, an operand or one of four constants; with one literal operand: `x*0`, `0*x` give 0; `x*1`, `1*x`, `x/1`, `x**1`, `0+x`, `x+0`, `x-0` give the other operand; `x**0`, `1**x` give 1; `0-x` is kept; `&&` with a falsy literal gives `false`, `\|\|` with a truthy literal gives `true`; a non-number literal never triggers an arithmetic rule; other operators are untouched |
| Optimizer.OptimizeExpression | src/optimizer.cpp:8-54 | null gives null; literals, identifiers, members and statements pass through unchanged and write nothing; a call stays a call with as many argument slots (nothing is inlined); an ordinary call gets the optimized callee and the optimized arguments; the only error is the division by zero |
| Optimizer.LogArguments | src/optimizer.cpp:27-39 | the `console.log` loop fails only with the division by zero |
| Optimizer.OptimizeArguments | src/optimizer.cpp:47-50 | an ordinary call keeps one slot per argument, and slot `j` holds argument `j` optimized |
| Optimizer.OptimizeStatement | src/optimizer.cpp:56-64 | only a return statement's argument is rewritten, by `optimizeExpression`; every other statement passes through |
| Optimizer.OptimizeBody | src/optimizer.cpp:77-79 | the copied body has each statement optimized, in order, one per original slot |
| Optimizer.OptimizeDeclaration | src/optimizer.cpp:66-85 | the registry changes only by filing the function under its name, where the last write wins and the entry keeps name, params and the optimized body; the returned function has every body slot emptied; a variable gets its optimized initializer; anything else passes through |
| Optimizer.ConstantReturn | src/optimizer.cpp:362-370 | a registered function returns a constant exactly when its body is one `return <literal>` |
| Optimizer.InlineSimpleFunctions | src/optimizer.cpp:354-375 | a node changes exactly when it is a call of an identifier whose registered body is one `return <literal>`; it becomes that literal and the arguments are dropped |
| OptimizerProperties.BothLiteralOperandsFold | src/optimizer.cpp:15-19 | when both operands optimize to literals the binary becomes the folded literal, and fails exactly for a number divided by 0 |
| OptimizerProperties.UnmatchedPairsGiveZero | src/optimizer.cpp:135-192 | `2 && 3`, `"a" == "a"` and `true * 2` all become the number 0 |
| OptimizerProperties.BinaryStep | src/optimizer.cpp:15-19 | a binary is optimized by optimizing both operands, folding, then the algebraic rules, with the two outputs in order |
| OptimizerProperties.UnaryStep | src/optimizer.cpp:11-14 | a unary is optimized by optimizing its operand, then the unary rules |
| OptimizerProperties.TimesZeroStep | src/optimizer.cpp:229-257 | multiplying by a literal 0 on either side gives 0, whatever the other operand |
| OptimizerProperties.TimesZero | src/optimizer.cpp:229-257 | `x * 0` and `0 * x` optimize to 0 for every `x` that optimizes without error, keeping what `x` wrote |
| OptimizerProperties.DoubleNegation | src/optimizer.cpp:117-120 | `!!e` optimizes like `e` when `e` becomes neither a literal nor a `!` unary |
| OptimizerProperties.ConsoleLogCall | src/optimizer.cpp:21-42 | `console.log` keeps its callee and argument count, empties every slot, and its output ends with a newline |
| OptimizerProperties.LogLiteralStep | src/optimizer.cpp:28-37 | an argument that optimizes to a literal writes what optimizing it wrote, then the literal's text, preceded by a space unless it is the first |
| OptimizerProperties.LogLiteralArgument | src/optimizer.cpp:28-37 | an argument that is a literal already writes only its text, with the same spacing |
| OptimizerProperties.ConsoleLogFoldedExample | src/optimizer.cpp:27-40 | `console.log(1 + 2)` writes the stream form of 3 and a newline |
| OptimizerProperties.OrdinaryCallExample | src/optimizer.cpp:46-50 | `f(1 + 2)` becomes `f(3)` |
| OptimizerProperties.LiteralRenderings | src/optimizer.cpp:211-222 | string concatenation, `console.log` and `print` render strings alike; booleans are words for the first two and `1`/`0` for `print`; numbers use `std::to_string` for concatenation and the stream otherwise |
| OptimizerProperties.LogNonLiteralStep | src/optimizer.cpp:28-38 | an argument that does not become a literal writes only what optimizing it wrote, and no space |
| OptimizerProperties.LogLiteralSuffix | src/optimizer.cpp:27-39 | from the second argument on, literal arguments write a space and their text each |
| OptimizerProperties.ConsoleLogLiterals | src/optimizer.cpp:23-41 | with all-literal arguments, `console.log` writes their texts joined by single spaces and a newline |
| OptimizerProperties.ConsoleLogExample | src/optimizer.cpp:27-40 | `console.log("a", 1, true)` writes `a 1 true` and a newline |
| OptimizerProperties.DeclareStep | src/optimizer.cpp:72-81 | a function declaration files its optimized copy under its name and returns itself with emptied body slots |
| OptimizerProperties.DeclareThenInline | src/optimizer.cpp:354-374 | after declaring `function f(..) { return e }` with `e` folding to a literal, any call `f(..)` inlines to that literal |
| OptimizerProperties.TwoStatementsNotInlined | src/optimizer.cpp:365 | a function with two statements is never inlined |
| Soundness.UnaryKeepsValue | src/optimizer.cpp:89-123 | the unary rules keep the value of a unary over an operand with the same value |
| Soundness.FoldKeepsValue | src/optimizer.cpp:137-156 | folding two numbers under `+ - * /` gives the literal of the arithmetic result |
| Soundness.RulesKeepValue | src/optimizer.cpp:229-270 | the algebraic rules keep the value of a binary of the arithmetic fragment |
| Soundness.BinaryKeepsValue | src/optimizer.cpp:15-19 | folding then the algebraic rules keep the value of a binary over optimized operands |
| Soundness.UnaryCase | src/optimizer.cpp:11-14 | a unary whose operand keeps its value keeps its value |
| Soundness.BinaryCase | src/optimizer.cpp:15-19 | a binary whose operands keep their values keeps its value |
| Soundness.OptimizePreservesValue | src/optimizer.cpp:8-54 | on numbers and names combined by `+ - * /` and signed by unary `-`/`+`, optimizing succeeds, writes nothing, and keeps the value in every environment |
| Soundness.LeftToRightExample | src/optimizer.cpp:15-19 | `(1 + 2) * 3`, which is how `1 + 2 * 3` is parsed, optimizes to 9 |
| Idempotence.NoLogPreserved | src/optimizer.cpp:8-54 | optimizing never introduces a `console.log` member |
| Idempotence.ArgumentsNoLog | src/optimizer.cpp:47-50 | the same for the arguments of an ordinary call |
| Idempotence.ResultStable | src/optimizer.cpp:8-54 | when no rewritten call has `console.log` hidden in its callee, no rule applies anywhere in the result |
| Idempotence.ArgumentsStable | src/optimizer.cpp:47-50 | the same for the arguments of an ordinary call |
| Idempotence.StableFixed | src/optimizer.cpp:8-54 | a tree in which no rule applies optimizes to itself, writing nothing |
| Idempotence.ArgumentsFixed | src/optimizer.cpp:47-50 | the same for argument lists |
| Idempotence.EmptyLogArguments | src/optimizer.cpp:27-39 | `console.log` over emptied slots cannot fail |
| Idempotence.Idempotent | src/optimizer.cpp:8-54 | a second pass succeeds and returns the first pass's tree unchanged |
| Idempotence.LogAliasNotIdempotent | src/optimizer.cpp:21-50 | `(console.log + 0)(5)` becomes `console.log(5)`, which a second pass rewrites again |
| Render.Indent | include/ast.hpp:29 | the indentation is two spaces per level |
| Render.Layout | include/ast.hpp:28-31 | a line is its indentation followed by its text |
| Render.ParamLayout | include/ast.hpp:166-169 | a parameter written with the declaration's indentation plus two spaces is laid out like a line one level deeper |
| Render.Render | include/ast.hpp:28-173 | the first line a node writes is its header at its own level |
| Render.Header | include/ast.hpp:28-168 | the text after the indentation on each class's first line; stated through `Render`, `FunctionExample` and `BoolLiteralExample` |
| Render.LiteralText | include/ast.hpp:48-59 | a literal's printed value: the stream form of a number, the string, `1` or `0`; related to the other renderings by `LiteralRenderings` |
| Render.Below | include/ast.hpp:80-172 | the lines under a header; their order is stated by `BinaryOrder`, `CallOrder`, `FunctionOrder`, their depth by `BelowIndented`, `BelowShift` |
| Render.Arguments | include/ast.hpp:107-109 | a call's argument lines; stated by `ArgumentsIndented`, `ArgumentsShift`, `ArgumentsCount` |
| Render.Body | include/ast.hpp:170-172 | a function's statement lines; stated by `BodyIndented`, `BodyShift`, `BodyCount` |
| Render.Child | include/ast.hpp:80 | an empty child writes nothing and a present one writes at least its header |
| Render.Params | include/ast.hpp:167-169 | one line per parameter, in order |
| Render.RenderIndented | include/ast.hpp:90-95 | every line after a node's header is at least one level deeper |
| Render.BelowIndented | include/ast.hpp:103-110 | the lines under a node's header are all at the children's level or deeper |
| Render.ChildIndented | include/ast.hpp:80 | a child's lines are at its level or deeper |
| Render.ArgumentsIndented | include/ast.hpp:107-109 | a call's argument lines are at the argument level or deeper |
| Render.BodyIndented | include/ast.hpp:170-172 | a function's statement lines are at the body level or deeper |
| Render.ShiftLayout | include/ast.hpp:29 | one level deeper is two more spaces in front of the same text |
| Render.ShiftAppend | include/ast.hpp:28-31 | shifting distributes over consecutive output |
| Render.RenderShift | include/ast.hpp:90-95 | printing a subtree one level deeper writes the same lines one level further in |
| Render.BelowShift | include/ast.hpp:103-110 | the same for the lines under a header |
| Render.ChildShift | include/ast.hpp:80 | the same for an optional child |
| Render.ArgumentsShift | include/ast.hpp:107-109 | the same for a call's arguments |
| Render.BodyShift | include/ast.hpp:170-172 | the same for a function's body |
| Render.RenderCount | include/ast.hpp:164-173 | a node writes exactly one `Line` per node present in its tree and per parameter (a string literal holding a newline is one `Line` spanning several physical lines) |
| Render.ChildCount | include/ast.hpp:80 | an optional child writes one line per node present |
| Render.ArgumentsCount | include/ast.hpp:107-109 | a call's arguments write one line per node present |
| Render.BodyCount | include/ast.hpp:170-172 | a function's body writes one line per node present |
| Render.FunctionExample | include/ast.hpp:164-173 | `function f(a) { return a; }` prints the parameter and the return statement at the same level, the identifier one deeper |
| Render.BoolLiteralExample | include/ast.hpp:48-59 | a boolean literal is printed as `1` or `0` |
| Render.ArgumentsInOrder | include/ast.hpp:107-109 | a call's arguments are printed one after the other, in list order, as the plain list rendering `RenderEach` gives them |
| Render.BodyInOrder | include/ast.hpp:170-172 | a function's statements are printed one after the other, in list order |
| Render.BinaryOrder | include/ast.hpp:90-95 | a binary prints its operator line, then its whole left operand, then its whole right operand, one level deeper |
| Render.CallOrder | include/ast.hpp:102-110 | a call prints its own line, then its callee if present, then each argument in order, one level deeper |
| Render.FunctionOrder | include/ast.hpp:164-173 | a function prints its own line, then one line per parameter, then each statement in order: parameters before body |
| Render.CallExample | include/ast.hpp:102-110 | `f(1)` prints the call's line, then `f`, then `1` |
| Render.BinaryOfCallExample | include/ast.hpp:90-110 | `f(1) + x` prints `+`, then the call with its callee and argument, then `x` |
| Render.FunctionExampleLayout | include/ast.hpp:164-169 | the characters of those lines: two spaces per level |
| Lexer.Next | src/lexer.cpp:20-23 | advancing shortens the unread input by one character, and not past its end |
| Lexer.SuffixTransitive | src/lexer.cpp:20-23 | what remains after remaining input is remaining input |
| Lexer.SkipWhitespace | src/lexer.cpp:25-29 | reads the whitespace in front and only that |
| Lexer.ScanNumber | src/lexer.cpp:31-45 | reads digits and at most one point, and stops only where no digit follows and a following point would be a second one |
| Lexer.ScanNumberOf | src/lexer.cpp:31-45 | conversely, a maximal run of digits with at most one point is read whole |
| Lexer.ScanWord | src/lexer.cpp:47-56 | reads the longest run of letters, digits and underscores |
| Lexer.ScanWordOf | src/lexer.cpp:47-56 | conversely, such a run followed by another character is read whole |
| Lexer.ScanString | src/lexer.cpp:58-83 | the scan ends inside the input |
| Lexer.ScanPair | src/lexer.cpp:64-71 | a backslash and a character read as the unescaped character |
| Lexer.ScanPlain | src/lexer.cpp:72-74 | any other character reads as itself |
| Lexer.ScanControl | src/lexer.cpp:64-71 | `\n`, `\t`, `\r` and an escaped character read back as the character escaped |
| Lexer.ScanEscapedChar | src/lexer.cpp:63-76 | one escaped character reads back as itself |
| Lexer.ScanEscaped | src/lexer.cpp:58-83 | a string literal's contents, escaped and closed by the same quote, read back exactly, with the other quote kind as plain text |
| Lexer.UnterminatedString | src/lexer.cpp:63-82 | a string without its closing quote runs to the end of the input without error |
| Lexer.OperatorAt | src/lexer.cpp:121-135 | reads two characters exactly when they form `==`, `!=`, `<=`, `>=`, `&&` or `\|\|`, otherwise one |
| Lexer.OperatorKnown | src/lexer.cpp:121-137 | every operator token is one of the 18 single or 6 double operators |
| Lexer.ConsTerminated | src/lexer.cpp:137-144 | a well-formed token in front of a terminated sequence keeps it terminated |
| Lexer.Classes | src/lexer.cpp:88-141 | the character classes the main loop tests, in its order, do not overlap |
| Lexer.SpaceStep | src/lexer.cpp:89-92 | whitespace produces no token |
| Lexer.NumberStep | src/lexer.cpp:94-97 | a digit starts one number token |
| Lexer.WordStep | src/lexer.cpp:99-108 | a letter or `_` starts one keyword or identifier token |
| Lexer.StringStep | src/lexer.cpp:110-113 | a quote starts one string token |
| Lexer.OperatorStep | src/lexer.cpp:121-139 | an operator character starts one operator token |
| Lexer.PairStep | src/lexer.cpp:125-134 | a pair such as `==` is one token |
| Lexer.SingleStep | src/lexer.cpp:121-137 | any other operator character is a token by itself |
| Lexer.DotStep | src/lexer.cpp:115-119 | a `.` is a `DOT` token |
| Lexer.TokenizeSound | src/lexer.cpp:85-146 | on success the tokens end with exactly one end-of-input token of empty text, none earlier, each well formed and none of the parenthesis or comma kinds; on failure the message names a character of the input that no token starts with |
| Lexer.Tokenize | src/lexer.cpp:85-146 | the only failure is the invalid-character message naming one character |
| Lexer.InvalidStep | src/lexer.cpp:141 | a character that starts no token, where a token may start, fails the input with the message naming it |
| Lexer.NumberToken | src/lexer.cpp:94-97 | a maximal number in front becomes one `NUMBER` token with that text |
| Lexer.WordToken | src/lexer.cpp:99-108 | a word becomes `KEYWORD` exactly when it is one of the nine keywords, else `IDENTIFIER`, with the exact text |
| Lexer.StringToken | src/lexer.cpp:110-113 | a string literal becomes one `STRING` token with its contents |
| Lexer.SkipLeading | src/lexer.cpp:25-29 | whitespace in front is skipped whole |
| Lexer.LeadingWhitespace | src/lexer.cpp:88-92 | whitespace in front changes nothing in the result |
| Lexer.PowerIsTwoTokens | src/lexer.cpp:121-137 | `**` is two `*` tokens |
| Lexer.IdentifierB | src/lexer.cpp:99-108 | `b` is one identifier |
| Lexer.EqualsB | src/lexer.cpp:125-134 | `==b` reads `==` greedily |
| Lexer.NumberThree | src/lexer.cpp:115-119 | `.3` is a `DOT` and a number |
| Lexer.TwoPointsExample | src/lexer.cpp:35-37 | `1.2.3` is `1.2`, a `DOT`, and `3` |
| Lexer.NulEndsInput | src/lexer.cpp:88 | a NUL character ends the input |
| Lexer.InvalidExample | src/lexer.cpp:141 | `#` fails with "Invalid character encountered: #" |
| Parser.Peek | src/parser.cpp:6-11 | past the end the token is an end-of-input token with empty text |
| Parser.Advance | src/parser.cpp:13-18 | the cursor moves by one, and never past the end |
| Parser.Match | src/parser.cpp:20-26 | consumes one token exactly when its kind is the one asked for, otherwise the cursor stays |
| Parser.SkipSemicolon | src/parser.cpp:54-56 | an optional `;` is consumed when present |
| Parser.ParsePrimary | src/parser.cpp:89-118 | on success the cursor moves; numbers and strings are literals, an identifier followed by `(` is a call ending at `)`, any other identifier is an identifier; any other token fails with "Unexpected token: " and its text |
| Parser.ParseArguments | src/parser.cpp:98-111 | on success the list ends after its `)` without reading the end marker; a `)` closes it; after an argument anything but `,` or `)` is "Expected ',' between function arguments"; an argument's error is the list's |
| Parser.ParseExpression | src/parser.cpp:71-87 | the result is a primary or a binary, and the loop stops only where no `+ - * /` follows |
| Parser.ParseOperations | src/parser.cpp:74-84 | the result is a binary exactly when an arithmetic operator follows the first operand, otherwise it is that operand |
| Parser.ParseStatement | src/parser.cpp:38-69 | a statement moves the cursor and does not read past the end |
| Parser.ParseVariableDeclaration | src/parser.cpp:121-139 | a declaration needs an identifier ("Expected variable name"); without `=` it reads the name and an optional `;`; with `=` it reads the initializer, whose error is its own, then an optional `;` |
| Parser.ParseFunctionDeclaration | src/parser.cpp:141-181 | needs a name, then `(`, each with its own message, and ends after a `}` |
| Parser.FunctionDeclarationSteps | src/parser.cpp:152-181 | after the name and `(`: the parameter list's error is the declaration's; a list not followed by `{` is "Expected '{' after function parameters"; otherwise it succeeds exactly when the body does and ends where the body ends |
| Parser.ParseParameters | src/parser.cpp:152-167 | on success the list ends after its `)`; a `)` closes it; after a name anything but `,` or `)` is "Expected ',' between parameters"; where a name is due any other token is "Expected parameter name"; no other failure |
| Parser.RecordedParameters | src/parser.cpp:162-165 | as written, every entry recorded for a parameter is `,` or `)` |
| Parser.ParameterNames | src/parser.cpp:162-165 | corrected, one name per parameter, succeeding and failing as the parse does |
| Parser.ParseBody | src/parser.cpp:175-179 | the body ends after its `}` |
| Parser.ParseStatements | src/parser.cpp:31-33 | the loop stops at the end-of-input token and reads no token past it |
| Parser.Parse | src/parser.cpp:28-36 | succeeds exactly when the statements do, and then returns a plain `PROGRAM` node |
| ParserProperties.ExpressionTag | src/parser.cpp:71-87 | an expression is binary exactly when an operator of `+ - * /` follows its first primary |
| ParserProperties.StatementDispatch | src/parser.cpp:38-69 | the first token decides the statement: `let`/`const`/`var`, `function`, `return`, otherwise an expression |
| ParserProperties.OtherKeywordFails | src/parser.cpp:38-62 | any other keyword in statement position is an unexpected token |
| ParserProperties.BareReturnFails | src/parser.cpp:50-52 | `return;` fails with "Unexpected token: ;": a return needs an expression |
| ParserProperties.UnterminatedBodyFails | src/parser.cpp:175-178 | a body without `}` is an error, not an endless loop |
| ParserProperties.ConsumesAllTokens | src/parser.cpp:31-33 | on tokens with a single end marker at the end, a successful parse reads every token before it |
| ParserProperties.TerminatedEndsOnce | src/lexer.cpp:144 | every token sequence the lexer produces has a single end marker at the end |
| ParserProperties.LexThenParse | src/parser.cpp:28-36 | lexing then parsing successfully reads the whole token sequence |
| ParserProperties.IdentifiersAppend | src/parser.cpp:152-166 | the identifiers of two consecutive stretches of tokens are those of each, in order |
| ParserProperties.ParameterNamesInOrder | src/parser.cpp:152-166 | corrected, the names recorded are exactly the identifiers of the parameter list, in order |
| ParserProperties.DeclarationExample | src/parser.cpp:121-139 | `let x = 1 + 2;` is one declaration of seven tokens and the program parses |
| ParserProperties.MissingCommaExample | src/parser.cpp:102-106 | `f(1 2)` fails with "Expected ',' between function arguments" |
| ParserProperties.ParameterCommaExample | src/parser.cpp:153-158 | `function f(a b)` fails with "Expected ',' between parameters" |
| ParserProperties.ParameterNameExample | src/parser.cpp:162-164 | `function f(1)` fails with "Expected parameter name" |
| ParserProperties.OpenBraceExample | src/parser.cpp:169-172 | `function f() x` fails with "Expected '{' after function parameters" |
| ParserProperties.DeclarationFormsExample | src/parser.cpp:121-139 | `var y;` reads three tokens; `let x = ;` fails with the initializer's "Unexpected token: ;" |
| ParserProperties.DeclarationStatement | src/parser.cpp:42-45 | a `let`/`const`/`var` statement reads exactly what its declaration reads |
| ParserProperties.ReturnStatement | src/parser.cpp:50-58 | `return` succeeds exactly when an expression follows; that expression's error is the statement's; on success it ends after the expression and one optional `;` |
| ParserProperties.FunctionStatement | src/parser.cpp:46-49 | a `function` statement reads exactly what its declaration reads |
| ParserProperties.ParameterNamesExample | src/parser.cpp:165 | for `function f(a, b)` the list as written holds `,` and `)`, corrected `a` and `b` |

## Left out

- `include/thread_pool.hpp`, `include/memory_pool.hpp`, `src/ast.cpp`: concurrency and raw-memory allocation. The compiler's stages do not depend on them.
- `src/main.cpp`: reading the file, timing, exit codes and printing the final tree are I/O. The top-level driver is not part of this model.
- Floating point: doubles are reals, so NaN, infinities, signed zero and rounding are not modelled. `std::pow`, `std::stod` (with its NaN fallback), `std::to_string` and the stream's rendering of a double are uninterpreted.
- Standard output: `console.log` text is returned as a string. On a division-by-zero failure, whatever was written before the error is not returned.
- The lexer's `<cctype>` classification is that of the C locale on ASCII. A character outside ASCII is simply one that starts no token.
- Lexer.ScanString: states only that the scan ends inside the input. What it reads is stated by `ScanEscaped` and `UnterminatedString`. Those leave out input whose contents contain a raw NUL, which the C++ loop stops at, and an escaped NUL, which the loop appends and reads past.
- Tree construction in the parser: the C++ parser discards every child it parses and the parameter list, so only tags and cursor movement are modelled.
- Render.Render: requires the arguments of every call and the statements of every function body to be present (`Renderable`). The C++ renderers dereference those entries without a check, so an emptied slot there, as left by `console.log` or a declared function, is a null dereference, not output.
- Idempotence.Idempotent: requires that no rewritten call hides `console.log` inside a callee that is not itself `console.log`. Without that proviso a second pass can rewrite again, as `LogAliasNotIdempotent` shows.
- Optimizer.LogArguments: its contract states only the error. What it writes is stated per argument by `LogLiteralStep` (an argument that optimizes to a literal) and `LogNonLiteralStep` (one that does not), and for all-literal calls by `LogLiteralSuffix` and `ConsoleLogLiterals`.
- Parser.ParseStatement: its contract states progress and errors. Which statement is recognised is stated by `StatementDispatch`; what each keyword statement reads, and which error it gives, by `DeclarationStatement`, `FunctionStatement` and `ReturnStatement`.

## Findings

| source | as written | input that shows it | evidently intended | confidence | as-written member | corrected member |
|---|---|---|---|---|---|---|
| src/parser.cpp:162-165 | after `match(IDENTIFIER)` has consumed a parameter name, `peek().value` is recorded, which is the token after the name | `function f(a, b) {}` records `,` and `)` | record the name just consumed, `a` and `b` | high (not executed; the list is never used afterwards) | Parser.RecordedParameters, ParserProperties.ParameterNamesExample | Parser.ParameterNames, ParserProperties.ParameterNamesInOrder |
