/** The lexer as the original writes it: a cursor over the source that
    appends tokens to a list, proved to compute `LexerSpec.Lex`. */
module Lexing {
  import opened Results
  import opened Values
  import opened Tokens
  import opened LexerSpec

  class Lexer {
    const source: string
    var tokens: seq<Token>
    /** Where the token being scanned starts. */
    var start: nat
    /** The next character to read. */
    var current: nat
    var line: nat

    ghost predicate Valid()
      reads this
    {
      start <= current <= |source| && line >= 1
    }

    constructor (source: string)
      ensures Valid() && this.source == source
      ensures tokens == [] && start == 0 && current == 0 && line == 1
    {
      this.source := source;
      tokens := [];
      start, current, line := 0, 0, 1;
    }

    /** Scans the rest of the source and closes the token list with the
        end-of-input token; on a fresh lexer the result is `Lex(source)`. */
    method ScanTokens() returns (r: Result<seq<Token>, LexError>)
      requires Valid()
      modifies this
      ensures r == Prepend(old(tokens), Scan(source, old(current), old(line)))
      ensures r.Ok? ==> Valid() && tokens == r.value && current == |source|
    {
      while !IsAtEnd()
        invariant Valid()
        invariant Prepend(tokens, Scan(source, current, line)) == Prepend(old(tokens), Scan(source, old(current), old(line)))
        decreases |source| - current
      {
        ghost var before, pos, posLine := tokens, current, line;
        start := current;
        var err := ScanToken();
        if err.Some? {
          return Err(err.value);
        }
        match ScanStep(source, pos, posLine)
        case Emit(t, next) =>
          PrependTwice(before, [t], Scan(source, next, posLine));
        case Skip(_, _) =>
      }
      tokens := tokens + [Token(EOF, "", None, line)];
      return Ok(tokens);
    }

    /** Scans one token, or skips one whitespace character, from `current`. */
    method ScanToken() returns (err: Option<LexError>)
      requires Valid() && start == current < |source|
      modifies this
      ensures Valid() && start == old(start)
      ensures match ScanStep(source, old(current), old(line))
              case Emit(t, next) => err.None? && tokens == old(tokens) + [t] && current == next && line == old(line)
              case Skip(next, nextLine) => err.None? && tokens == old(tokens) && current == next && line == nextLine
              case Fail(e) => err == Some(e)
    {
      err := None;
      var c := Advance();
      match c {
        case '(' => AddToken(LeftParen, None);
        case ')' => AddToken(RightParen, None);
        case '{' => AddToken(LeftBrace, None);
        case '}' => AddToken(RightBrace, None);
        case '+' => AddToken(Plus, None);
        case '-' => AddToken(Minus, None);
        case '*' => AddToken(Star, None);
        case '/' => AddToken(Slash, None);
        case ';' => AddToken(Semicolon, None);
        case '!' =>
          var matched := Match('=');
          if matched {
            AddToken(BangEqual, None);
          } else {
            err := Some(ExpectedEqualAfterBang(line));
          }
        case '=' =>
          var matched := Match('=');
          AddToken(if matched then EqualEqual else Equal, None);
        case '<' =>
          var matched := Match('=');
          AddToken(if matched then LessEqual else Less, None);
        case '>' =>
          var matched := Match('=');
          AddToken(if matched then GreaterEqual else Greater, None);
        case ' ' =>
        case '\r' =>
        case '\t' =>
        case '\n' =>
          line := line + 1;
        case _ =>
          if IsDigit(c) {
            err := Number();
          } else if IsLetter(c) {
            Identifier();
          } else {
            err := Some(UnexpectedCharacter(line, c));
          }
      }
    }

    /** Finishes a word and adds it as a keyword or an identifier. */
    method Identifier()
      requires Valid()
      modifies this
      ensures Valid() && start == old(start) && line == old(line)
      ensures current == WordEnd(source, old(current))
      ensures tokens == old(tokens) + [Token(WordKind(source[start..current]), source[start..current], None, line)]
    {
      while IsLetterOrDigit(Peek())
        invariant Valid() && start == old(start) && line == old(line) && tokens == old(tokens)
        invariant old(current) <= current && WordEnd(source, current) == WordEnd(source, old(current))
        decreases |source| - current
      {
        var _ := Advance();
      }
      var text := source[start..current];
      var kind := if text in Keywords then Keywords[text] else TokenType.Identifier;
      AddToken(kind, None);
    }

    /** Finishes a digit run and adds it as a number with its value; a value
        too large for an `int` is the error `int.Parse` throws. */
    method Number() returns (err: Option<LexError>)
      requires Valid() && forall i | start <= i < current :: IsDigit(source[i])
      modifies this
      ensures Valid() && start == old(start) && line == old(line)
      ensures current == DigitRunEnd(source, old(current))
      ensures AllDigits(source[start..current])
      ensures var value := DecimalValue(source[start..current]);
              if value <= MaxInt32 then
                err.None? && tokens == old(tokens) + [Token(TokenType.Number, source[start..current], Some(value), line)]
              else
                err == Some(LiteralOverflow(source[start..current]))
    {
      while IsDigit(Peek())
        invariant Valid() && start == old(start) && line == old(line) && tokens == old(tokens)
        invariant old(current) <= current && DigitRunEnd(source, current) == DigitRunEnd(source, old(current))
        invariant forall i | start <= i < current :: IsDigit(source[i])
        decreases |source| - current
      {
        var _ := Advance();
      }
      var text := source[start..current];
      assert forall i | 0 <= i < |text| :: text[i] == source[start + i];
      var value := DecimalValue(text);
      if value <= MaxInt32 {
        AddToken(TokenType.Number, Some(value));
        err := None;
      } else {
        err := Some(LiteralOverflow(text));
      }
    }

    /** Consumes the next character if it is `expected`. */
    method Match(expected: char) returns (matched: bool)
      requires Valid()
      modifies this`current
      ensures matched == (old(current) < |source| && source[old(current)] == expected)
      ensures current == if matched then old(current) + 1 else old(current)
    {
      if IsAtEnd() || source[current] != expected {
        return false;
      }
      current := current + 1;
      return true;
    }

    /** The next character, or NUL at the end of the source. */
    function Peek(): (c: char)
      reads this
      requires Valid()
      ensures c != '\0' ==> current < |source| && c == source[current]
    {
      if IsAtEnd() then '\0' else source[current]
    }

    method Advance() returns (c: char)
      requires current < |source|
      modifies this`current
      ensures c == source[old(current)] && current == old(current) + 1
    {
      c := source[current];
      current := current + 1;
    }

    /** Appends the token spanning `start` to `current`. */
    method AddToken(kind: TokenType, literal: Option<Int32>)
      requires Valid()
      modifies this`tokens
      ensures tokens == old(tokens) + [Token(kind, source[start..current], literal, line)]
    {
      var text := source[start..current];
      tokens := tokens + [Token(kind, text, literal, line)];
    }

    predicate IsAtEnd()
      reads this
    {
      current >= |source|
    }
  }

  /** Runs a fresh lexer over `source`. */
  method ScanSource(source: string) returns (r: Result<seq<Token>, LexError>)
    ensures r == Lex(source)
  {
    var lexer := new Lexer(source);
    r := lexer.ScanTokens();
    PrependNothing(Lex(source));
  }
}
