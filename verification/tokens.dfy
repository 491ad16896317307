/** The tokens the lexer hands to the parser (`include/lexer.hpp`). */
module Tokens {
  /** `TokenType`. The lexer files parentheses and commas as `OPERATOR`; the three kinds
      `LEFT_PAREN`, `RIGHT_PAREN` and `COMMA` exist but are never produced. */
  datatype TokenType =
    | NUMBER
    | STRING
    | IDENTIFIER
    | KEYWORD
    | OPERATOR
    | LEFT_PAREN
    | RIGHT_PAREN
    | COMMA
    | DOT
    | EOF_TOKEN

  /** A token: its kind and the text it carries (for a string, the unescaped contents). */
  datatype Token = Token(kind: TokenType, text: string)

  /** The marker that ends every token sequence. */
  const EndOfInput: Token := Token(EOF_TOKEN, "")
}
