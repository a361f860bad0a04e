/** The lexer's behaviour as pure functions: one scanning step from a
    position, and the whole scan as the repetition of that step until the
    end of the source. The `Lexer` class is proved to compute exactly this. */
module LexerSpec {
  import opened Results
  import opened Values
  import opened Tokens

  // Character classes, restricted to ASCII (see README).

  predicate IsDigit(c: char)
  {
    '0' <= c <= '9'
  }

  predicate IsLetter(c: char)
  {
    'a' <= c <= 'z' || 'A' <= c <= 'Z'
  }

  predicate IsLetterOrDigit(c: char)
  {
    IsLetter(c) || IsDigit(c)
  }

  /** The characters the lexer skips; only the newline advances the line. */
  predicate IsWhitespace(c: char)
  {
    c == ' ' || c == '\r' || c == '\t' || c == '\n'
  }

  predicate AllDigits(s: string)
  {
    forall i | 0 <= i < |s| :: IsDigit(s[i])
  }

  /** A letter followed by letters and digits. */
  predicate IsWord(s: string)
  {
    |s| > 0 && IsLetter(s[0]) && forall i | 0 <= i < |s| :: IsLetterOrDigit(s[i])
  }

  /** The failures of a scan. The first two are the lexer's own `Error`s and
      carry the line; the third is the overflow `int.Parse` throws, which
      carries only the text. */
  datatype LexError =
    | ExpectedEqualAfterBang(line: nat)
    | UnexpectedCharacter(line: nat, c: char)
    | LiteralOverflow(text: string)

  function DigitValue(c: char): nat
    requires IsDigit(c)
  {
    (c as int) - ('0' as int)
  }

  /** The value of a run of decimal digits, most significant first. */
  function DecimalValue(s: string): nat
    requires AllDigits(s)
  {
    if |s| == 0 then 0 else 10 * DecimalValue(s[..|s| - 1]) + DigitValue(s[|s| - 1])
  }

  /** The first index at or after `k` that does not hold a digit. */
  function DigitRunEnd(src: string, k: nat): (r: nat)
    requires k <= |src|
    ensures k <= r <= |src|
    ensures forall i | k <= i < r :: IsDigit(src[i])
    ensures r == |src| || !IsDigit(src[r])
    decreases |src| - k
  {
    if k < |src| && IsDigit(src[k]) then DigitRunEnd(src, k + 1) else k
  }

  /** The first index at or after `k` that does not hold a letter or digit. */
  function WordEnd(src: string, k: nat): (r: nat)
    requires k <= |src|
    ensures k <= r <= |src|
    ensures forall i | k <= i < r :: IsLetterOrDigit(src[i])
    ensures r == |src| || !IsLetterOrDigit(src[r])
    decreases |src| - k
  {
    if k < |src| && IsLetterOrDigit(src[k]) then WordEnd(src, k + 1) else k
  }

  /** What kind of token a lexeme is, read off the lexeme alone: the
      reference the scanner's choices are checked against. */
  function Classify(s: string): Option<TokenType>
  {
    if s in Symbols then Some(Symbols[s])
    else if |s| > 0 && AllDigits(s) then Some(Number)
    else if IsWord(s) then Some(WordKind(s))
    else None
  }

  /** The outcome of scanning from one position: a token and where the next
      scan starts, a skipped whitespace character, or an error. */
  datatype Step =
    | Emit(token: Token, next: nat)
    | Skip(next: nat, line: nat)
    | Fail(error: LexError)

  /** Whether the character after `pos` is `c` (the lexer's `Match`). */
  predicate Follows(src: string, pos: nat, c: char)
  {
    pos + 1 < |src| && src[pos + 1] == c
  }

  /** The token made of `src[pos..end]`. */
  function Slice(src: string, pos: nat, end: nat, kind: TokenType, line: nat): Step
    requires pos <= end <= |src|
  {
    Emit(Token(kind, src[pos..end], None, line), end)
  }

  /** A one-character operator, or its two-character form when `=` follows. */
  function OneOrTwo(src: string, pos: nat, line: nat, one: TokenType, two: TokenType): Step
    requires pos < |src|
  {
    if Follows(src, pos, '=') then Slice(src, pos, pos + 2, two, line) else Slice(src, pos, pos + 1, one, line)
  }

  /** A maximal digit run, and its value unless that overflows an `int`. */
  function NumberStep(src: string, pos: nat, line: nat): (r: Step)
    requires pos < |src| && IsDigit(src[pos])
    ensures !r.Skip?
    ensures r.Emit? ==> && r.token.kind == Number && pos < r.next <= |src|
                        && r.token.lexeme == src[pos..r.next] && AllDigits(r.token.lexeme)
                        && (r.next == |src| || !IsDigit(src[r.next]))
                        && r.token.literal == Some(DecimalValue(r.token.lexeme))
                        && r.token.line == line
    ensures r.Fail? ==> && r.error.LiteralOverflow? && AllDigits(r.error.text)
                        && DecimalValue(r.error.text) > MaxInt32
                        && var end := pos + |r.error.text|;
                           end <= |src| && src[pos..end] == r.error.text && (end == |src| || !IsDigit(src[end]))
  {
    var end := DigitRunEnd(src, pos + 1);
    var text := src[pos..end];
    assert AllDigits(text) by {
      assert forall i | 0 <= i < |text| :: text[i] == src[pos + i];
    }
    var value := DecimalValue(text);
    if value <= MaxInt32 then Emit(Token(Number, text, Some(value), line), end)
    else Fail(LiteralOverflow(text))
  }

  /** A maximal word, classified through the keyword table. */
  function WordStep(src: string, pos: nat, line: nat): (r: Step)
    requires pos < |src| && IsLetter(src[pos])
    ensures r.Emit? && pos < r.next <= |src| && r.token.lexeme == src[pos..r.next]
    ensures forall k | pos < k < r.next :: IsLetterOrDigit(src[k])
    ensures r.next == |src| || !IsLetterOrDigit(src[r.next])
    ensures r.token.kind == WordKind(r.token.lexeme) && r.token.literal.None? && r.token.line == line
  {
    var end := WordEnd(src, pos + 1);
    Slice(src, pos, end, WordKind(src[pos..end]), line)
  }

  /** One scanning step at `pos` on line `line`. */
  function ScanStep(src: string, pos: nat, line: nat): (r: Step)
    requires pos < |src|
    ensures r.Emit? ==> pos < r.next <= |src| && r.token.lexeme == src[pos..r.next] && r.token.line == line
    ensures r.Emit? ==> (r.token.literal.Some? <==> r.token.kind == Number)
    ensures r.Emit? && r.token.kind == Number ==>
              AllDigits(r.token.lexeme) && r.token.literal.value == DecimalValue(r.token.lexeme)
    ensures r.Skip? ==> r.next == pos + 1 && IsWhitespace(src[pos])
    ensures r.Skip? ==> r.line == if src[pos] == '\n' then line + 1 else line
  {
    match src[pos]
    case '(' => Slice(src, pos, pos + 1, LeftParen, line)
    case ')' => Slice(src, pos, pos + 1, RightParen, line)
    case '{' => Slice(src, pos, pos + 1, LeftBrace, line)
    case '}' => Slice(src, pos, pos + 1, RightBrace, line)
    case '+' => Slice(src, pos, pos + 1, Plus, line)
    case '-' => Slice(src, pos, pos + 1, Minus, line)
    case '*' => Slice(src, pos, pos + 1, Star, line)
    case '/' => Slice(src, pos, pos + 1, Slash, line)
    case ';' => Slice(src, pos, pos + 1, Semicolon, line)
    case '!' =>
      if Follows(src, pos, '=') then Slice(src, pos, pos + 2, BangEqual, line)
      else Fail(ExpectedEqualAfterBang(line))
    case '=' => OneOrTwo(src, pos, line, Equal, EqualEqual)
    case '<' => OneOrTwo(src, pos, line, Less, LessEqual)
    case '>' => OneOrTwo(src, pos, line, Greater, GreaterEqual)
    case ' ' => Skip(pos + 1, line)
    case '\r' => Skip(pos + 1, line)
    case '\t' => Skip(pos + 1, line)
    case '\n' => Skip(pos + 1, line + 1)
    case c =>
      if IsDigit(c) then NumberStep(src, pos, line)
      else if IsLetter(c) then WordStep(src, pos, line)
      else Fail(UnexpectedCharacter(line, c))
  }

  /** Puts tokens in front of the rest of a scan, passing errors through. */
  function Prepend(prefix: seq<Token>, rest: Result<seq<Token>, LexError>): Result<seq<Token>, LexError>
  {
    match rest
    case Ok(ts) => Ok(prefix + ts)
    case Err(e) => Err(e)
  }

  lemma PrependTwice(a: seq<Token>, b: seq<Token>, rest: Result<seq<Token>, LexError>)
    ensures Prepend(a, Prepend(b, rest)) == Prepend(a + b, rest)
  {
    if rest.Ok? {
      assert a + (b + rest.value) == (a + b) + rest.value;
    }
  }

  lemma PrependNothing(rest: Result<seq<Token>, LexError>)
    ensures Prepend([], rest) == rest
  {
    if rest.Ok? {
      assert [] + rest.value == rest.value;
    }
  }

  /** Scanning from `pos` on line `line` to the end of the source, closed by
      the end-of-input token. */
  function Scan(src: string, pos: nat, line: nat): (r: Result<seq<Token>, LexError>)
    requires pos <= |src|
    ensures r.Ok? ==> 1 <= |r.value| <= |src| - pos + 1
    ensures r.Ok? ==> r.value[|r.value| - 1].kind == EOF && r.value[|r.value| - 1].lexeme == ""
    decreases |src| - pos
  {
    if pos == |src| then Ok([Token(EOF, "", None, line)])
    else
      match ScanStep(src, pos, line)
      case Fail(e) => Err(e)
      case Skip(next, nextLine) => Scan(src, next, nextLine)
      case Emit(t, next) => Prepend([t], Scan(src, next, line))
  }

  /** The whole source, from its first character on line 1. */
  function Lex(src: string): (r: Result<seq<Token>, LexError>)
    ensures r.Ok? ==> 1 <= |r.value| <= |src| + 1
    ensures r.Ok? ==> r.value[|r.value| - 1].kind == EOF && r.value[|r.value| - 1].lexeme == ""
  {
    Scan(src, 0, 1)
  }
}
