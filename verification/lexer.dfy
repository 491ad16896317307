/** The lexer (`src/lexer.cpp`): turns source text into tokens ended by one `EOF_TOKEN`.

    The C++ lexer keeps a position and a current character that reads as NUL once the
    position is past the end. Here the state is the unread suffix of the input: `Cur` is its
    first character (NUL when it is empty) and `Next` drops one character. Character classes
    are those of the C locale on ASCII characters. */
module Lexer {
  import opened Wrappers
  import opened Tokens

  const NUL: char := '\0'
  const VerticalTab: char := 11 as char
  const FormFeed: char := 12 as char

  /** The words `Lexer::Lexer` enters in its keyword table. */
  const Keywords: set<string> := {"let", "const", "var", "function", "return", "if", "else", "while", "for"}

  /** The characters that start an operator token. */
  const OperatorChars: set<char> :=
    {'+', '-', '*', '/', '(', ')', '=', ';', '{', '}', '[', ']', ',', '<', '>', '!', '&', '|'}

  /** Every operator token the lexer can produce: one operator character, or one of the six
      two-character operators. */
  const Operators: set<string> := {
    "+", "-", "*", "/", "(", ")", "=", ";", "{", "}", "[", "]", ",", "<", ">", "!", "&", "|",
    "==", "!=", "<=", ">=", "&&", "||"
  }

  const InvalidCharacter: string := "Invalid character encountered: "

  predicate IsSpace(c: char) {
    c == ' ' || c == '\t' || c == '\n' || c == VerticalTab || c == FormFeed || c == '\r'
  }

  predicate IsDigit(c: char) { '0' <= c <= '9' }

  predicate IsAlpha(c: char) { 'a' <= c <= 'z' || 'A' <= c <= 'Z' }

  predicate IsWordStart(c: char) { IsAlpha(c) || c == '_' }

  predicate IsWordChar(c: char) { IsAlpha(c) || IsDigit(c) || c == '_' }

  predicate IsQuote(c: char) { c == '"' || c == '\'' }

  /** A character the main loop of `tokenize` accepts where a token may start. */
  predicate Starts(c: char) {
    IsSpace(c) || IsDigit(c) || IsWordStart(c) || IsQuote(c) || c == '.' || c in OperatorChars
  }

  /** `current_char`: NUL once the input is used up. */
  function Cur(s: string): char {
    if |s| == 0 then NUL else s[0]
  }

  /** `advance()`. */
  function Next(s: string): (r: string)
    ensures |r| == if |s| == 0 then 0 else |s| - 1
  {
    if |s| == 0 then s else s[1..]
  }

  /** `r` is what is left of `s` after some characters were read. */
  predicate SuffixOf(r: string, s: string) {
    |r| <= |s| && r == s[|s| - |r|..]
  }

  lemma SuffixTransitive(a: string, b: string, c: string)
    requires SuffixOf(a, b) && SuffixOf(b, c)
    ensures SuffixOf(a, c)
  {
  }

  /** What a scanning routine read and what it left. */
  datatype Scanned = Scanned(text: string, rest: string)

  /** `skip_whitespace()`: reads the whitespace in front, and only that. */
  function SkipWhitespace(s: string): (r: Scanned)
    decreases |s|
    ensures r.text + r.rest == s
    ensures forall k :: 0 <= k < |r.text| ==> IsSpace(r.text[k])
    ensures !IsSpace(Cur(r.rest))
  {
    if |s| > 0 && IsSpace(s[0]) then
      var t := SkipWhitespace(s[1..]);
      var text := [s[0]] + t.text;
      assert text[0] == s[0] && text[1..] == t.text && text + t.rest == [s[0]] + s[1..];
      assert forall k :: 1 <= k < |text| ==> text[k] == t.text[k - 1];
      Scanned(text, t.rest)
    else
      Scanned("", s)
  }

  /** How many decimal points `s` holds. */
  function Points(s: string): nat
    decreases |s|
  {
    if s == [] then 0 else (if s[0] == '.' then 1 else 0) + Points(s[1..])
  }

  /** `get_number()` once `seenDot` tells whether a decimal point was already read: digits
      and at most one point, as many as there are. */
  function ScanNumber(s: string, seenDot: bool): (r: Scanned)
    decreases |s|
    ensures r.text + r.rest == s
    ensures forall k :: 0 <= k < |r.text| ==> IsDigit(r.text[k]) || r.text[k] == '.'
    ensures Points(r.text) <= if seenDot then 0 else 1
    // it stops only at a character that cannot continue the number
    ensures !IsDigit(Cur(r.rest))
    ensures Cur(r.rest) == '.' ==> seenDot || Points(r.text) == 1
  {
    if |s| > 0 && (IsDigit(s[0]) || s[0] == '.') && !(s[0] == '.' && seenDot) then
      var t := ScanNumber(s[1..], seenDot || s[0] == '.');
      var text := [s[0]] + t.text;
      assert text[0] == s[0] && text[1..] == t.text;
      assert Points(text) == (if s[0] == '.' then 1 else 0) + Points(t.text);
      Scanned(text, t.rest)
    else
      Scanned("", s)
  }

  /** `get_identifier()`: the longest run of letters, digits and underscores in front. */
  function ScanWord(s: string): (r: Scanned)
    decreases |s|
    ensures r.text + r.rest == s
    ensures forall k :: 0 <= k < |r.text| ==> IsWordChar(r.text[k])
    ensures !IsWordChar(Cur(r.rest))
  {
    if |s| > 0 && IsWordChar(s[0]) then
      var t := ScanWord(s[1..]);
      var text := [s[0]] + t.text;
      assert text[0] == s[0] && text[1..] == t.text && text + t.rest == [s[0]] + s[1..];
      assert forall k :: 1 <= k < |text| ==> text[k] == t.text[k - 1];
      Scanned(text, t.rest)
    else
      Scanned("", s)
  }

  /** The character an escape `\c` stands for. Any other character, NUL included, stands
      for itself. */
  function Unescape(c: char): char {
    match c
    case 'n' => '\n'
    case 't' => '\t'
    case 'r' => '\r'
    case _ => c
  }

  /** `get_string()` after the opening `quote` was read: the contents up to the closing
      quote, which is consumed, or up to the end of the input (or an unescaped NUL). */
  function ScanString(s: string, quote: char): (r: Scanned)
    requires IsQuote(quote)
    decreases |s|
    ensures SuffixOf(r.rest, s)
  {
    if Cur(s) == NUL then Scanned("", s)
    else if s[0] == quote then Scanned("", s[1..])
    else
      var escaped := s[0] == '\\';
      var c := if escaped then Unescape(Cur(s[1..])) else s[0];
      var t := ScanString(if escaped then Next(s[1..]) else s[1..], quote);
      Scanned([c] + t.text, t.rest)
  }

  /** The escape sequence for one character of a string literal that `ScanString` reads
      back as that character. */
  function EscapeChar(c: char, quote: char): string {
    if c == '\\' || c == quote || c == NUL then ['\\', c]
    else if c == '\n' then "\\n"
    else if c == '\t' then "\\t"
    else if c == '\r' then "\\r"
    else [c]
  }

  /** The body of a string literal, quoted with `quote`, whose contents are `v`. */
  function Escape(v: string, quote: char): string
    decreases |v|
  {
    if |v| == 0 then "" else EscapeChar(v[0], quote) + Escape(v[1..], quote)
  }

  /** A backslash and the character `e` after it. */
  lemma ScanPair(e: char, quote: char, tail: string)
    requires IsQuote(quote)
    ensures var t := ScanString(tail, quote);
            ScanString(['\\', e] + tail, quote) == Scanned([Unescape(e)] + t.text, t.rest)
  {
    var s := ['\\', e] + tail;
    assert s[1..] == [e] + tail;
    assert Next(s[1..]) == tail;
  }

  /** A character that is written as itself. */
  lemma ScanPlain(c: char, quote: char, tail: string)
    requires IsQuote(quote) && c != NUL && c != quote && c != '\\'
    ensures var t := ScanString(tail, quote);
            ScanString([c] + tail, quote) == Scanned([c] + t.text, t.rest)
  {
    assert ([c] + tail)[1..] == tail;
  }

  /** A character written as a backslash and `e`. */
  lemma ScanControl(c: char, e: char, quote: char, tail: string)
    requires IsQuote(quote) && EscapeChar(c, quote) == ['\\', e] && Unescape(e) == c
    ensures var t := ScanString(tail, quote);
            ScanString(EscapeChar(c, quote) + tail, quote) == Scanned([c] + t.text, t.rest)
  {
    ScanPair(e, quote, tail);
  }

  /** One escaped character, then whatever follows. */
  lemma ScanEscapedChar(c: char, quote: char, tail: string)
    requires IsQuote(quote)
    ensures var t := ScanString(tail, quote);
            ScanString(EscapeChar(c, quote) + tail, quote) == Scanned([c] + t.text, t.rest)
  {
    if c == '\\' || c == quote || c == NUL {
      ScanControl(c, c, quote, tail);
    } else if c == '\n' {
      ScanControl(c, 'n', quote, tail);
    } else if c == '\t' {
      ScanControl(c, 't', quote, tail);
    } else if c == '\r' {
      ScanControl(c, 'r', quote, tail);
    } else {
      assert EscapeChar(c, quote) == [c];
      ScanPlain(c, quote, tail);
    }
  }

  /** A string with no closing quote runs to the end of the input without an error: every
      character up to the end is its contents. */
  lemma {:induction false} UnterminatedString(v: string, quote: char)
    requires IsQuote(quote)
    requires forall k :: 0 <= k < |v| ==> v[k] != quote && v[k] != '\\' && v[k] != NUL
    ensures ScanString(v, quote) == Scanned(v, "")
    decreases |v|
  {
    if |v| > 0 {
      UnterminatedString(v[1..], quote);
      assert [v[0]] + v[1..] == v;
    }
  }

  /** A string literal's contents read back: escaping and scanning are inverse. */
  lemma {:induction false} ScanEscaped(v: string, quote: char, rest: string)
    requires IsQuote(quote)
    ensures ScanString(Escape(v, quote) + [quote] + rest, quote) == Scanned(v, rest)
    decreases |v|
  {
    if |v| == 0 {
      assert Escape(v, quote) + [quote] + rest == [quote] + rest;
    } else {
      ScanEscaped(v[1..], quote, rest);
      var tail := Escape(v[1..], quote) + [quote] + rest;
      assert Escape(v, quote) + [quote] + rest == EscapeChar(v[0], quote) + tail;
      ScanEscapedChar(v[0], quote, tail);
      assert [v[0]] + v[1..] == v;
    }
  }

  /** One token in front of the result of lexing the rest. */
  function Cons(t: Token, r: Result<seq<Token>>): Result<seq<Token>> {
    if r.Ok? then Ok([t] + r.value) else r
  }

  /** `op` followed by `c` makes one of the two-character operators. */
  predicate Pairs(op: char, c: char) {
    || ((op == '=' || op == '!' || op == '<' || op == '>') && c == '=')
    || (op == '&' && c == '&')
    || (op == '|' && c == '|')
  }

  /** The operator in front of `s`: two characters when the second completes one of the
      two-character operators, one otherwise. The character after an operator character
      can be NUL only at the end of the input, and NUL pairs with nothing. */
  function OperatorAt(s: string): (r: Scanned)
    requires |s| > 0 && s[0] in OperatorChars
    ensures r.text + r.rest == s && 1 <= |r.text| <= 2
    ensures |r.text| == 2 <==> |s| > 1 && Pairs(s[0], s[1])
  {
    if |s| > 1 && Pairs(s[0], s[1]) then Scanned(s[..2], s[2..]) else Scanned(s[..1], s[1..])
  }

  /** Whatever `OperatorAt` reads is one of the operators. */
  lemma OperatorKnown(s: string)
    requires |s| > 0 && s[0] in OperatorChars
    ensures OperatorAt(s).text in Operators
  {
    if |s| > 1 && Pairs(s[0], s[1]) {
      assert OperatorAt(s).text == [s[0], s[1]];
    } else {
      assert OperatorAt(s).text == [s[0]];
    }
  }

  /** What each kind of token may carry. */
  predicate WellFormed(t: Token) {
    match t.kind
    case NUMBER =>
      && |t.text| > 0 && IsDigit(t.text[0])
      && (forall k :: 0 <= k < |t.text| ==> IsDigit(t.text[k]) || t.text[k] == '.')
      && Points(t.text) <= 1
    case STRING => true
    case IDENTIFIER =>
      && |t.text| > 0 && IsWordStart(t.text[0])
      && (forall k :: 0 <= k < |t.text| ==> IsWordChar(t.text[k]))
      && t.text !in Keywords
    case KEYWORD => t.text in Keywords
    case OPERATOR => t.text in Operators
    case DOT => t.text == "."
    case EOF_TOKEN => t.text == ""
    case LEFT_PAREN => false
    case RIGHT_PAREN => false
    case COMMA => false
  }

  /** A token sequence as `tokenize()` returns it: well-formed tokens ended by exactly one
      end-of-input marker. */
  predicate Terminated(ts: seq<Token>) {
    && |ts| >= 1 && ts[|ts| - 1] == EndOfInput
    && (forall k :: 0 <= k < |ts| - 1 ==> ts[k].kind != EOF_TOKEN)
    && (forall k :: 0 <= k < |ts| ==> WellFormed(ts[k]))
  }

  lemma ConsTerminated(t: Token, ts: seq<Token>)
    requires WellFormed(t) && t.kind != EOF_TOKEN && Terminated(ts)
    ensures Terminated([t] + ts)
  {
    var r := [t] + ts;
    assert forall k :: 1 <= k < |r| ==> r[k] == ts[k - 1];
  }

  /** `tokenize()`. Lexing stops at the end of the input or at a NUL character outside a
      string; a character that cannot start a token is an error naming that character
      (`TokenizeSound`, `InvalidStep`). */
  function Tokenize(s: string): (r: Result<seq<Token>>)
    decreases |s|
    // the only error is the invalid-character one, naming one character
    ensures r.Err? ==> |r.error| == |InvalidCharacter| + 1 && InvalidCharacter <= r.error
  {
    if Cur(s) == NUL then Ok([EndOfInput])
    else
      var c := s[0];
      if IsSpace(c) then
        Tokenize(SkipWhitespace(s).rest)
      else if IsDigit(c) then
        var t := ScanNumber(s, false);
        Cons(Token(NUMBER, t.text), Tokenize(t.rest))
      else if IsWordStart(c) then
        var t := ScanWord(s);
        Cons(Token(if t.text in Keywords then KEYWORD else IDENTIFIER, t.text), Tokenize(t.rest))
      else if IsQuote(c) then
        var t := ScanString(s[1..], c);
        Cons(Token(STRING, t.text), Tokenize(t.rest))
      else if c == '.' then
        Cons(Token(DOT, "."), Tokenize(s[1..]))
      else if c in OperatorChars then
        var t := OperatorAt(s);
        Cons(Token(OPERATOR, t.text), Tokenize(t.rest))
      else
        Err(InvalidCharacter + [c])
  }

  // ---------------------------------------------------------------------------------------
  // One step of the main loop, by the character in front
  // ---------------------------------------------------------------------------------------

  /** The classes the main loop tests, in its order, do not overlap. */
  lemma Classes(c: char)
    ensures IsSpace(c) ==> c != NUL
    ensures IsDigit(c) ==> c != NUL && !IsSpace(c)
    ensures IsWordStart(c) ==> c != NUL && !IsSpace(c) && !IsDigit(c)
    ensures IsQuote(c) ==> c != NUL && !IsSpace(c) && !IsDigit(c) && !IsWordStart(c)
    ensures c == '.' ==> !IsSpace(c) && !IsDigit(c) && !IsWordStart(c) && !IsQuote(c)
    ensures c in OperatorChars ==>
      c != NUL && !IsSpace(c) && !IsDigit(c) && !IsWordStart(c) && !IsQuote(c) && c != '.'
  {
  }

  lemma SpaceStep(s: string)
    requires |s| > 0 && IsSpace(s[0])
    ensures Tokenize(s) == Tokenize(SkipWhitespace(s).rest)
  {
    Classes(s[0]);
  }

  lemma NumberStep(s: string)
    requires |s| > 0 && IsDigit(s[0])
    ensures var t := ScanNumber(s, false);
            Tokenize(s) == Cons(Token(NUMBER, t.text), Tokenize(t.rest))
  {
    Classes(s[0]);
  }

  lemma WordStep(s: string)
    requires |s| > 0 && IsWordStart(s[0])
    ensures var t := ScanWord(s);
            Tokenize(s) == Cons(Token(if t.text in Keywords then KEYWORD else IDENTIFIER, t.text), Tokenize(t.rest))
  {
    Classes(s[0]);
  }

  lemma StringStep(s: string)
    requires |s| > 0 && IsQuote(s[0])
    ensures var t := ScanString(s[1..], s[0]);
            Tokenize(s) == Cons(Token(STRING, t.text), Tokenize(t.rest))
  {
    Classes(s[0]);
  }

  lemma OperatorStep(s: string)
    requires |s| > 0 && s[0] in OperatorChars
    ensures var t := OperatorAt(s);
            Tokenize(s) == Cons(Token(OPERATOR, t.text), Tokenize(t.rest))
  {
    Classes(s[0]);
  }

  lemma PairStep(s: string)
    requires |s| > 1 && s[0] in OperatorChars && Pairs(s[0], s[1])
    ensures Tokenize(s) == Cons(Token(OPERATOR, s[..2]), Tokenize(s[2..]))
  {
    assert OperatorAt(s) == Scanned(s[..2], s[2..]);
    OperatorStep(s);
  }

  lemma SingleStep(s: string)
    requires |s| > 0 && s[0] in OperatorChars && !(|s| > 1 && Pairs(s[0], s[1]))
    ensures Tokenize(s) == Cons(Token(OPERATOR, [s[0]]), Tokenize(s[1..]))
  {
    assert OperatorAt(s) == Scanned(s[..1], s[1..]) && s[..1] == [s[0]];
    OperatorStep(s);
  }

  lemma DotStep(s: string)
    requires |s| > 0 && s[0] == '.'
    ensures Tokenize(s) == Cons(Token(DOT, "."), Tokenize(s[1..]))
  {
    Classes(s[0]);
  }

  /** A character that starts no token, where a token may start, fails the whole input with
      the message naming it. */
  lemma InvalidStep(s: string)
    requires |s| > 0 && s[0] != NUL && !Starts(s[0])
    ensures Tokenize(s) == Err(InvalidCharacter + [s[0]])
  {
  }

  /** What `tokenize()` promises its caller: on success, well-formed tokens ended by exactly
      one end-of-input marker, with no parenthesis or comma kinds among them; on failure, the
      message names a character of the input that no token starts with. */
  lemma {:induction false} TokenizeSound(s: string)
    ensures OkTerminated(Tokenize(s))
    ensures ErrorNamed(s, Tokenize(s))
    decreases |s|
  {
    if Cur(s) == NUL {
      return;
    }
    var c := s[0];
    Classes(c);
    if IsSpace(c) {
      SpaceStep(s);
      var t := SkipWhitespace(s);
      var rest := t.rest;
      assert |t.text| > 0 && rest == s[|t.text|..];
      TokenizeSound(rest);
      SuffixError(s, rest, Tokenize(rest));
    } else if IsDigit(c) {
      NumberStep(s);
      var t := ScanNumber(s, false);
      assert |t.text| > 0 && t.text[0] == c;
      assert t.rest == s[|t.text|..];
      TokenizeSound(t.rest);
      ConsSound(s, t.rest, Token(NUMBER, t.text));
    } else if IsWordStart(c) {
      WordStep(s);
      var t := ScanWord(s);
      assert |t.text| > 0 && t.text[0] == c;
      assert t.rest == s[|t.text|..];
      TokenizeSound(t.rest);
      ConsSound(s, t.rest, Token(if t.text in Keywords then KEYWORD else IDENTIFIER, t.text));
    } else if IsQuote(c) {
      StringStep(s);
      var t := ScanString(s[1..], c);
      SuffixTransitive(t.rest, s[1..], s);
      TokenizeSound(t.rest);
      ConsSound(s, t.rest, Token(STRING, t.text));
    } else if c == '.' {
      DotStep(s);
      TokenizeSound(s[1..]);
      ConsSound(s, s[1..], Token(DOT, "."));
    } else if c in OperatorChars {
      OperatorStep(s);
      var t := OperatorAt(s);
      OperatorKnown(s);
      TokenizeSound(t.rest);
      ConsSound(s, t.rest, Token(OPERATOR, t.text));
    } else {
      assert s[0] != NUL && !Starts(s[0]);
    }
  }

  predicate OkTerminated(r: Result<seq<Token>>) {
    r.Ok? ==> Terminated(r.value)
  }

  /** A failure names a character of `s`, not NUL, that no token starts with. */
  predicate ErrorNamed(s: string, r: Result<seq<Token>>) {
    r.Err? ==>
      exists k :: 0 <= k < |s| && s[k] != NUL && !Starts(s[k]) && r.error == InvalidCharacter + [s[k]]
  }

  lemma SuffixError(s: string, rest: string, r: Result<seq<Token>>)
    requires SuffixOf(rest, s) && ErrorNamed(rest, r)
    ensures ErrorNamed(s, r)
  {
    if r.Err? {
      var k :| 0 <= k < |rest| && rest[k] != NUL && !Starts(rest[k]) && r.error == InvalidCharacter + [rest[k]];
      assert s[|s| - |rest| + k] == rest[k];
    }
  }

  lemma ConsSound(s: string, rest: string, t: Token)
    requires SuffixOf(rest, s) && WellFormed(t) && t.kind != EOF_TOKEN
    requires OkTerminated(Tokenize(rest)) && ErrorNamed(rest, Tokenize(rest))
    ensures OkTerminated(Cons(t, Tokenize(rest))) && ErrorNamed(s, Cons(t, Tokenize(rest)))
  {
    SuffixError(s, rest, Tokenize(rest));
    if Tokenize(rest).Ok? {
      ConsTerminated(t, Tokenize(rest).value);
    }
  }

  // ---------------------------------------------------------------------------------------
  // Scanning reads exactly one token's characters
  // ---------------------------------------------------------------------------------------

  /** Conversely to `ScanNumber`'s contract: a run of digits and points that cannot be
      continued is read exactly, whatever follows. */
  lemma {:induction false} ScanNumberOf(text: string, rest: string, seenDot: bool)
    requires forall k :: 0 <= k < |text| ==> IsDigit(text[k]) || text[k] == '.'
    requires Points(text) <= if seenDot then 0 else 1
    requires !IsDigit(Cur(rest)) && (Cur(rest) == '.' ==> seenDot || Points(text) == 1)
    ensures ScanNumber(text + rest, seenDot) == Scanned(text, rest)
    decreases |text|
  {
    if |text| > 0 {
      assert text == [text[0]] + text[1..];
      assert Points(text) == Points(text[1..]) + (if text[0] == '.' then 1 else 0);
      assert (text + rest)[1..] == text[1..] + rest;
      assert ScanNumber(text + rest, seenDot)
          == var t := ScanNumber(text[1..] + rest, seenDot || text[0] == '.'); Scanned([text[0]] + t.text, t.rest);
      ScanNumberOf(text[1..], rest, seenDot || text[0] == '.');
    } else {
      assert text + rest == rest;
    }
  }

  /** Conversely to `ScanWord`'s contract: a run of word characters that cannot be
      continued is read exactly. */
  lemma {:induction false} ScanWordOf(text: string, rest: string)
    requires forall k :: 0 <= k < |text| ==> IsWordChar(text[k])
    requires !IsWordChar(Cur(rest))
    ensures ScanWord(text + rest) == Scanned(text, rest)
    decreases |text|
  {
    if |text| > 0 {
      assert (text + rest)[1..] == text[1..] + rest;
      assert ScanWord(text + rest) == var t := ScanWord(text[1..] + rest); Scanned([text[0]] + t.text, t.rest);
      ScanWordOf(text[1..], rest);
      assert [text[0]] + text[1..] == text;
    } else {
      assert text + rest == rest;
    }
  }

  /** A number in front becomes one `NUMBER` token. */
  lemma NumberToken(text: string, rest: string)
    requires |text| > 0 && IsDigit(text[0])
    requires forall k :: 0 <= k < |text| ==> IsDigit(text[k]) || text[k] == '.'
    requires Points(text) <= 1
    requires !IsDigit(Cur(rest)) && (Cur(rest) == '.' ==> Points(text) == 1)
    ensures Tokenize(text + rest) == Cons(Token(NUMBER, text), Tokenize(rest))
  {
    ScanNumberOf(text, rest, false);
    assert (text + rest)[0] == text[0];
    NumberStep(text + rest);
  }

  /** A word in front becomes one `KEYWORD` token when it is in the keyword table and one
      `IDENTIFIER` token otherwise. */
  lemma WordToken(text: string, rest: string)
    requires |text| > 0 && IsWordStart(text[0])
    requires forall k :: 0 <= k < |text| ==> IsWordChar(text[k])
    requires !IsWordChar(Cur(rest))
    ensures Tokenize(text + rest)
            == Cons(Token(if text in Keywords then KEYWORD else IDENTIFIER, text), Tokenize(rest))
  {
    ScanWordOf(text, rest);
    assert (text + rest)[0] == text[0];
    WordStep(text + rest);
  }

  /** A string literal in front becomes one `STRING` token carrying its contents. */
  lemma StringToken(v: string, quote: char, rest: string)
    requires IsQuote(quote)
    ensures Tokenize([quote] + Escape(v, quote) + [quote] + rest)
            == Cons(Token(STRING, v), Tokenize(rest))
  {
    var s := [quote] + Escape(v, quote) + [quote] + rest;
    assert s[0] == quote && s[1..] == Escape(v, quote) + [quote] + rest;
    ScanEscaped(v, quote, rest);
    assert ScanString(s[1..], s[0]) == Scanned(v, rest);
    StringStep(s);
  }

  // ---------------------------------------------------------------------------------------
  // Whitespace separates tokens and nothing else
  // ---------------------------------------------------------------------------------------

  lemma {:induction false} SkipLeading(w: string, s: string)
    requires forall k :: 0 <= k < |w| ==> IsSpace(w[k])
    ensures SkipWhitespace(w + s).rest == SkipWhitespace(s).rest
    decreases |w|
  {
    if |w| > 0 {
      assert (w + s)[1..] == w[1..] + s;
      assert IsSpace((w + s)[0]);
      assert SkipWhitespace(w + s).rest == SkipWhitespace(w[1..] + s).rest;
      SkipLeading(w[1..], s);
    } else {
      assert w + s == s;
    }
  }

  /** Whitespace in front of the input produces no token. */
  lemma LeadingWhitespace(w: string, s: string)
    requires forall k :: 0 <= k < |w| ==> IsSpace(w[k])
    ensures Tokenize(w + s) == Tokenize(s)
  {
    if |w| == 0 {
      assert w + s == s;
    } else {
      SkipLeading(w, s);
      assert (w + s)[0] == w[0];
      SpaceStep(w + s);
      if |s| > 0 && IsSpace(s[0]) {
        SpaceStep(s);
      } else {
        assert SkipWhitespace(s).rest == s;
      }
    }
  }

  // ---------------------------------------------------------------------------------------
  // Examples
  // ---------------------------------------------------------------------------------------

  /** There is no exponent operator: `**` is two multiplications. */
  lemma PowerIsTwoTokens()
    ensures Tokenize("**") == Ok([Token(OPERATOR, "*"), Token(OPERATOR, "*"), EndOfInput])
  {
    var star := Token(OPERATOR, "*");
    assert '*' in OperatorChars && !Pairs('*', '*');
    SingleStep("*");
    assert "*"[1..] == "" && Tokenize("") == Ok([EndOfInput]);
    assert ["*"[0]] == "*" && [star] + [EndOfInput] == [star, EndOfInput];
    assert Tokenize("*") == Ok([star, EndOfInput]);
    SingleStep("**");
    assert "**"[1..] == "*";
    assert ["**"[0]] == "*" && [star] + [star, EndOfInput] == [star, star, EndOfInput];
    assert Tokenize("**") == Cons(star, Ok([star, EndOfInput]));
  }

  lemma IdentifierB()
    ensures Tokenize("b") == Ok([Token(IDENTIFIER, "b"), EndOfInput])
  {
    var b := Token(IDENTIFIER, "b");
    assert "b" == "b" + "" && "b" !in Keywords;
    WordToken("b", "");
    assert [b] + [EndOfInput] == [b, EndOfInput];
  }

  /** Comparison operators are read greedily. */
  lemma EqualsB()
    ensures Tokenize("==b") == Ok([Token(OPERATOR, "=="), Token(IDENTIFIER, "b"), EndOfInput])
  {
    var eq, b := Token(OPERATOR, "=="), Token(IDENTIFIER, "b");
    IdentifierB();
    assert '=' in OperatorChars && Pairs('=', '=');
    PairStep("==b");
    assert "==b"[..2] == "==" && "==b"[2..] == "b";
    assert [eq] + [b, EndOfInput] == [eq, b, EndOfInput];
  }

  lemma NumberThree()
    ensures Tokenize(".3") == Ok([Token(DOT, "."), Token(NUMBER, "3"), EndOfInput])
  {
    var dot, n3 := Token(DOT, "."), Token(NUMBER, "3");
    assert "3" == "3" + "" && Points("3") == 0;
    NumberToken("3", "");
    assert [n3] + [EndOfInput] == [n3, EndOfInput];
    DotStep(".3");
    assert ".3"[1..] == "3";
    assert [dot] + [n3, EndOfInput] == [dot, n3, EndOfInput];
  }

  /** A second decimal point ends a number and is read as a `DOT`. */
  lemma TwoPointsExample()
    ensures Tokenize("1.2.3")
            == Ok([Token(NUMBER, "1.2"), Token(DOT, "."), Token(NUMBER, "3"), EndOfInput])
  {
    var n12, dot, n3 := Token(NUMBER, "1.2"), Token(DOT, "."), Token(NUMBER, "3");
    NumberThree();
    assert Points("1.2") == 1;
    assert "1.2.3" == "1.2" + ".3";
    NumberToken("1.2", ".3");
    assert [n12] + [dot, n3, EndOfInput] == [n12, dot, n3, EndOfInput];
  }

  /** A NUL character outside a string ends the input. */
  lemma NulEndsInput()
    ensures Tokenize(['a', NUL, 'b']) == Ok([Token(IDENTIFIER, "a"), EndOfInput])
  {
    assert ['a', NUL, 'b'] == "a" + [NUL, 'b'];
    assert IsWordStart("a"[0]) && !IsWordChar(Cur([NUL, 'b']));
    WordToken("a", [NUL, 'b']);
    assert "a" !in Keywords;
    assert Tokenize([NUL, 'b']) == Ok([EndOfInput]);
    assert Tokenize("a" + [NUL, 'b']) == Cons(Token(IDENTIFIER, "a"), Ok([EndOfInput]));
    assert [Token(IDENTIFIER, "a")] + [EndOfInput] == [Token(IDENTIFIER, "a"), EndOfInput];
  }

  /** A character no token starts with is reported. */
  lemma InvalidExample()
    ensures Tokenize(" # y") == Err("Invalid character encountered: #")
  {
    Classes('#');
    assert "# y"[0] == '#' && !Starts('#');
    assert InvalidCharacter + ['#'] == "Invalid character encountered: #";
    assert " # y" == " " + "# y";
    LeadingWhitespace(" ", "# y");
  }
}
