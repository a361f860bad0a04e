/** What the lexer promises, proved about its specification. */
module LexerProperties {
  import opened Results
  import opened Values
  import opened Tokens
  import opened LexerSpec

  /** Every token a step emits is of the kind its lexeme alone determines:
      symbols by the operator table, digit runs as numbers, words through the
      keyword table. */
  lemma ScanStepAgreesWithClassify(src: string, pos: nat, line: nat)
    requires pos < |src|
    ensures ScanStep(src, pos, line).Emit? ==>
              Classify(ScanStep(src, pos, line).token.lexeme) == Some(ScanStep(src, pos, line).token.kind)
  {
    var r := ScanStep(src, pos, line);
    if r.Emit? {
      var c := src[pos];
      var lexeme := r.token.lexeme;
      if IsDigit(c) {
        assert lexeme[0] == c;
        assert lexeme !in Symbols;
      } else if IsLetter(c) {
        assert lexeme[0] == c;
        assert lexeme !in Symbols;
        assert !AllDigits(lexeme);
      } else {
        SymbolStep(src, pos, line);
      }
    }
  }

  /** A token that starts with neither a digit nor a letter is one of the
      table's symbols, of the kind the table gives it. */
  lemma SymbolStep(src: string, pos: nat, line: nat)
    requires pos < |src| && !IsDigit(src[pos]) && !IsLetter(src[pos]) && ScanStep(src, pos, line).Emit?
    ensures var t := ScanStep(src, pos, line).token;
            t.lexeme in Symbols && Symbols[t.lexeme] == t.kind
  {
    var r := ScanStep(src, pos, line);
    if r.next == pos + 1 {
      assert r.token.lexeme == [src[pos]];
    } else {
      assert r.token.lexeme == [src[pos], src[pos + 1]];
    }
  }

  // ---- Single steps -------------------------------------------------------

  /** Every lexeme the reference accepts is non-empty, holds no whitespace
      and is not the end sentinel. */
  lemma ClassifiedLexemeShape(s: string)
    requires Classify(s).Some?
    ensures |s| > 0 && Classify(s).value != EOF
    ensures forall i | 0 <= i < |s| :: !IsWhitespace(s[i])
  {
    if s in Symbols {
      SymbolShape(s);
    }
  }

  /** The characters the lexer knows how to start a token or skip with. */
  predicate Recognized(c: char)
  {
    c in "(){}+-*/;!=<>" || IsWhitespace(c) || IsDigit(c) || IsLetter(c)
  }

  /** A step skips exactly the whitespace characters, and fails exactly on a
      `!` not followed by `=`, on a character the lexer does not recognise,
      or on a number literal too large for an `int`; the lexer's own errors
      carry the current line. */
  lemma ScanStepCases(src: string, pos: nat, line: nat)
    requires pos < |src|
    ensures ScanStep(src, pos, line).Skip? <==> IsWhitespace(src[pos])
    ensures ScanStep(src, pos, line).Fail? <==>
              || (src[pos] == '!' && !Follows(src, pos, '='))
              || !Recognized(src[pos])
              || (IsDigit(src[pos]) && NumberStep(src, pos, line).Fail?)
    ensures ScanStep(src, pos, line) == Fail(ExpectedEqualAfterBang(line)) <==>
              src[pos] == '!' && !Follows(src, pos, '=')
    ensures ScanStep(src, pos, line) == Fail(UnexpectedCharacter(line, src[pos])) <==> !Recognized(src[pos])
  {
  }

  /** `=`, `<`, `>` and `!` take their two-character form exactly when `=`
      follows (maximal munch); `=`, `<`, `>` fall back to the one-character
      form, and a lone `!` is no token at all. */
  lemma MaximalMunch(src: string, pos: nat, line: nat)
    requires pos < |src| && src[pos] in "=<>!"
    ensures var r := ScanStep(src, pos, line);
            && (r.Emit? && r.next == pos + 2 <==> Follows(src, pos, '='))
            && (r.Emit? && r.next == pos + 1 <==> !Follows(src, pos, '=') && src[pos] != '!')
            && (r.Emit? ==> r.token.lexeme in Symbols && r.token.kind == Symbols[r.token.lexeme])
  {
    var r := ScanStep(src, pos, line);
    ScanStepAgreesWithClassify(src, pos, line);
    if r.Emit? {
      assert r.token.lexeme in Symbols by {
        assert r.token.lexeme[0] == src[pos];
      }
    }
  }

  /** A letter starts a word: the longest run of letters and digits from
      there, which is a keyword exactly when it spells one of the five
      reserved words and an identifier otherwise. */
  lemma WordRule(src: string, pos: nat, line: nat)
    requires pos < |src| && IsLetter(src[pos])
    ensures var r := ScanStep(src, pos, line);
            && r.Emit?
            && IsWord(r.token.lexeme)
            && (r.next == |src| || !IsLetterOrDigit(src[r.next]))
            && (r.token.kind != Identifier <==> r.token.lexeme in {"let", "if", "else", "while", "print"})
            && (r.token.kind == Identifier || IsKeyword(r.token.kind))
  {
  }

  /** A digit starts a number: the longest run of digits from there, whose
      literal is the decimal value of its text, or an overflow error when
      that value does not fit an `int`. */
  lemma NumberRule(src: string, pos: nat, line: nat)
    requires pos < |src| && IsDigit(src[pos])
    ensures var r := ScanStep(src, pos, line);
            var end := DigitRunEnd(src, pos + 1);
            && AllDigits(src[pos..end])
            && (end == |src| || !IsDigit(src[end]))
            && (r.Emit? <==> DecimalValue(src[pos..end]) <= MaxInt32)
            && (r.Emit? ==> r.next == end && r.token == Token(Number, src[pos..end], Some(DecimalValue(src[pos..end])), line))
            && (r.Fail? ==> r.error == LiteralOverflow(src[pos..end]))
  {
    var end := DigitRunEnd(src, pos + 1);
    assert forall i | 0 <= i < end - pos :: src[pos..end][i] == src[pos + i];
  }

  // ---- Whole scans --------------------------------------------------------

  /** The number of newline characters in `s`. */
  function Newlines(s: string): nat
  {
    if s == [] then 0 else (if s[0] == '\n' then 1 else 0) + Newlines(s[1..])
  }

  /** `s` without its whitespace characters. */
  function Strip(s: string): string
  {
    if s == [] then [] else (if IsWhitespace(s[0]) then [] else [s[0]]) + Strip(s[1..])
  }

  /** The lexemes of `ts`, concatenated in order. */
  function Lexemes(ts: seq<Token>): string
  {
    if ts == [] then [] else ts[0].lexeme + Lexemes(ts[1..])
  }

  lemma {:induction false} NewlinesAppend(a: string, b: string)
    ensures Newlines(a + b) == Newlines(a) + Newlines(b)
  {
    if a != [] {
      assert (a + b)[0] == a[0];
      assert (a + b)[1..] == a[1..] + b;
      NewlinesAppend(a[1..], b);
    } else {
      assert a + b == b;
    }
  }

  lemma {:induction false} StripAppend(a: string, b: string)
    ensures Strip(a + b) == Strip(a) + Strip(b)
  {
    if a != [] {
      assert (a + b)[0] == a[0];
      assert (a + b)[1..] == a[1..] + b;
      StripAppend(a[1..], b);
    } else {
      assert a + b == b;
    }
  }

  /** A string without whitespace has no newlines and is its own stripping. */
  lemma {:induction false} NoWhitespace(s: string)
    requires forall i | 0 <= i < |s| :: !IsWhitespace(s[i])
    ensures Newlines(s) == 0 && Strip(s) == s
  {
    if s != [] {
      NoWhitespace(s[1..]);
    }
  }

  /** What a step consumes: the lexeme of the token it emits, which holds no
      whitespace, or one whitespace character. */
  lemma StepConsumes(src: string, pos: nat, line: nat)
    requires pos < |src|
    ensures var r := ScanStep(src, pos, line);
            && (r.Emit? ==> src[pos..] == r.token.lexeme + src[r.next..]
                            && Newlines(r.token.lexeme) == 0 && Strip(r.token.lexeme) == r.token.lexeme
                            && r.token.kind != EOF)
            && (r.Skip? ==> src[pos..] == [src[pos]] + src[r.next..])
  {
    var r := ScanStep(src, pos, line);
    if r.Emit? {
      ScanStepAgreesWithClassify(src, pos, line);
      ClassifiedLexemeShape(r.token.lexeme);
      NoWhitespace(r.token.lexeme);
      assert src[pos..] == src[pos..r.next] + src[r.next..];
    }
  }

  /** A successful scan ends with exactly one end-of-input token, whose
      lexeme is empty and whose line is the starting line plus the number of
      newlines scanned. */
  lemma {:induction false} ScanEndsWithEof(src: string, pos: nat, line: nat)
    requires pos <= |src|
    ensures Scan(src, pos, line).Ok? ==> EndsWithEof(Scan(src, pos, line).value, line + Newlines(src[pos..]))
    decreases |src| - pos
  {
    if pos < |src| && Scan(src, pos, line).Ok? {
      var r := ScanStep(src, pos, line);
      if r.Skip? {
        ScanEndsWithEof(src, r.next, r.line);
        assert Scan(src, pos, line) == Scan(src, r.next, r.line);
        SkipCountsNewline(src, pos, line);
      } else if r.Emit? {
        ScanEndsWithEof(src, r.next, line);
        EmitCountsNoNewline(src, pos, line);
        assert Scan(src, r.next, line).Ok?;
        var rest := Scan(src, r.next, line).value;
        assert Scan(src, pos, line) == Ok([r.token] + rest);
        EndsWithEofPrepend(r.token, rest, line + Newlines(src[r.next..]));
      }
    }
  }

  /** `ts` is closed by the one end-of-input token, on line `last`. */
  predicate EndsWithEof(ts: seq<Token>, last: nat)
  {
    && |ts| > 0
    && ts[|ts| - 1] == Token(EOF, "", None, last)
    && forall k | 0 <= k < |ts| - 1 :: ts[k].kind != EOF
  }

  lemma EndsWithEofPrepend(t: Token, rest: seq<Token>, last: nat)
    requires t.kind != EOF && EndsWithEof(rest, last)
    ensures EndsWithEof([t] + rest, last)
  {
    var ts := [t] + rest;
    assert forall k | 1 <= k < |ts| :: ts[k] == rest[k - 1];
  }

  lemma SkipCountsNewline(src: string, pos: nat, line: nat)
    requires pos < |src| && ScanStep(src, pos, line).Skip?
    ensures var r := ScanStep(src, pos, line);
            line + Newlines(src[pos..]) == r.line + Newlines(src[r.next..])
  {
    var r := ScanStep(src, pos, line);
    assert src[pos..] == [src[pos]] + src[r.next..];
    NewlinesAppend([src[pos]], src[r.next..]);
  }

  lemma EmitCountsNoNewline(src: string, pos: nat, line: nat)
    requires pos < |src| && ScanStep(src, pos, line).Emit?
    ensures var r := ScanStep(src, pos, line);
            Newlines(src[pos..]) == Newlines(src[r.next..]) && r.token.kind != EOF
  {
    var r := ScanStep(src, pos, line);
    StepConsumes(src, pos, line);
    NewlinesAppend(r.token.lexeme, src[r.next..]);
  }

  /** The lexemes of a successful scan, read in order, are the scanned text
      with its whitespace removed: every other character belongs to exactly
      one token, in source order, and whitespace produces no token. */
  lemma {:induction false} ScanCoversSource(src: string, pos: nat, line: nat)
    requires pos <= |src|
    ensures Scan(src, pos, line).Ok? ==> Lexemes(Scan(src, pos, line).value) == Strip(src[pos..])
    decreases |src| - pos
  {
    if pos == |src| {
      assert Lexemes([Token(EOF, "", None, line)]) == "";
    } else {
      StepConsumes(src, pos, line);
      match ScanStep(src, pos, line)
      case Fail(_) =>
      case Skip(next, nextLine) =>
        ScanCoversSource(src, next, nextLine);
      case Emit(t, next) =>
        ScanCoversSource(src, next, line);
        StripAppend(t.lexeme, src[next..]);
        if Scan(src, next, line).Ok? {
          var rest := Scan(src, next, line).value;
          assert ([t] + rest)[1..] == rest;
        }
    }
  }

  /** A successful scan whose first step emits a token is that token
      followed by the successful scan from where the token ends. */
  lemma ScanAfterEmit(src: string, pos: nat, line: nat)
    requires pos < |src| && ScanStep(src, pos, line).Emit? && Scan(src, pos, line).Ok?
    ensures var r := ScanStep(src, pos, line);
            && Scan(src, r.next, line).Ok?
            && Scan(src, pos, line).value == [r.token] + Scan(src, r.next, line).value
  {
  }

  /** A scan whose first step skips a character is the scan from the next
      position, on the line the skip leaves. */
  lemma ScanAfterSkip(src: string, pos: nat, line: nat)
    requires pos < |src| && ScanStep(src, pos, line).Skip?
    ensures var r := ScanStep(src, pos, line);
            Scan(src, pos, line) == Scan(src, r.next, r.line)
  {
  }

  /** Token lines start at `line` and never decrease along the list. */
  predicate LinesFrom(ts: seq<Token>, line: nat)
  {
    && (forall k | 0 <= k < |ts| :: line <= ts[k].line)
    && (forall k | 0 <= k < |ts| - 1 :: ts[k].line <= ts[k + 1].line)
  }

  lemma LinesFromPrepend(t: Token, rest: seq<Token>, line: nat)
    requires t.line == line && LinesFrom(rest, line)
    ensures LinesFrom([t] + rest, line)
  {
    var ts := [t] + rest;
    assert forall k | 1 <= k < |ts| :: ts[k] == rest[k - 1];
  }

  /** Token lines start at the starting line and never decrease. */
  lemma {:induction false} ScanLinesNondecreasing(src: string, pos: nat, line: nat)
    requires pos <= |src|
    ensures Scan(src, pos, line).Ok? ==> LinesFrom(Scan(src, pos, line).value, line)
    decreases |src| - pos
  {
    if pos < |src| && Scan(src, pos, line).Ok? {
      var r := ScanStep(src, pos, line);
      if r.Skip? {
        ScanAfterSkip(src, pos, line);
        ScanLinesNondecreasing(src, r.next, r.line);
      } else if r.Emit? {
        ScanAfterEmit(src, pos, line);
        ScanLinesNondecreasing(src, r.next, line);
        LinesFromPrepend(r.token, Scan(src, r.next, line).value, line);
      }
    }
  }


  /** A token as the lexer makes it: of the kind its lexeme determines, with
      a literal exactly when it is a number, and that literal the decimal
      value of the lexeme. */
  predicate WellFormedToken(t: Token)
  {
    && t.kind != EOF
    && Classify(t.lexeme) == Some(t.kind)
    && (t.literal.Some? <==> t.kind == Number)
    && (t.kind == Number ==> AllDigits(t.lexeme) && t.literal.value == DecimalValue(t.lexeme))
  }

  /** Every token a step emits is well formed. */
  lemma StepTokenWellFormed(src: string, pos: nat, line: nat)
    requires pos < |src| && ScanStep(src, pos, line).Emit?
    ensures WellFormedToken(ScanStep(src, pos, line).token)
  {
    ScanStepAgreesWithClassify(src, pos, line);
    ClassifiedLexemeShape(ScanStep(src, pos, line).token.lexeme);
  }

  /** Every token of `ts` but the last is well formed. */
  predicate WellFormedBeforeLast(ts: seq<Token>)
  {
    forall k | 0 <= k < |ts| - 1 :: WellFormedToken(ts[k])
  }

  lemma WellFormedPrepend(t: Token, rest: seq<Token>)
    requires WellFormedToken(t) && WellFormedBeforeLast(rest) && |rest| > 0
    ensures WellFormedBeforeLast([t] + rest)
  {
    var ts := [t] + rest;
    forall k | 0 <= k < |ts| - 1
      ensures WellFormedToken(ts[k])
    {
      if k > 0 {
        assert ts[k] == rest[k - 1];
      }
    }
  }

  /** Every token of a successful scan but the last is well formed. */
  lemma {:induction false} ScanTokensWellFormed(src: string, pos: nat, line: nat)
    requires pos <= |src|
    ensures Scan(src, pos, line).Ok? ==> WellFormedBeforeLast(Scan(src, pos, line).value)
    decreases |src| - pos
  {
    if pos < |src| && Scan(src, pos, line).Ok? {
      var r := ScanStep(src, pos, line);
      if r.Skip? {
        ScanAfterSkip(src, pos, line);
        ScanTokensWellFormed(src, r.next, r.line);
      } else if r.Emit? {
        ScanAfterEmit(src, pos, line);
        ScanTokensWellFormed(src, r.next, line);
        StepTokenWellFormed(src, pos, line);
        ScanEndsWithEof(src, r.next, line);
        WellFormedPrepend(r.token, Scan(src, r.next, line).value);
      }
    }
  }

  /** For the whole source: a successful lex ends with the one end-of-input
      token, on line 1 plus the number of newlines in the source. */
  lemma LexEndsWithEof(src: string)
    ensures Lex(src).Ok? ==>
              var ts := Lex(src).value;
              && EndsWithEof(ts, 1 + Newlines(src))
              && WellFormedBeforeLast(ts)
              && (forall k | 0 <= k < |ts| - 1 :: ts[k].line <= ts[k + 1].line)
              && Lexemes(ts) == Strip(src)
  {
    assert src[0..] == src;
    ScanEndsWithEof(src, 0, 1);
    ScanTokensWellFormed(src, 0, 1);
    ScanLinesNondecreasing(src, 0, 1);
    ScanCoversSource(src, 0, 1);
  }

  // ---- Number literals round-trip -----------------------------------------

  function DigitChar(d: nat): (c: char)
    requires d < 10
    ensures IsDigit(c) && DigitValue(c) == d
  {
    ('0' as int + d) as char
  }

  /** The canonical decimal spelling of a natural number. */
  function DecimalString(n: nat): (s: string)
    ensures |s| > 0 && AllDigits(s)
  {
    if n < 10 then [DigitChar(n)] else DecimalString(n / 10) + [DigitChar(n % 10)]
  }

  /** Reading back the spelling of `n` gives `n`. */
  lemma {:induction false} DecimalStringValue(n: nat)
    ensures DecimalValue(DecimalString(n)) == n
  {
    var s := DecimalString(n);
    if n >= 10 {
      DecimalStringValue(n / 10);
      assert s[..|s| - 1] == DecimalString(n / 10);
    }
  }

  /** A digit string whose value is at least 1 when its first digit is not 0. */
  lemma {:induction false} LeadingDigitBound(s: string)
    requires |s| > 0 && AllDigits(s) && s[0] != '0'
    ensures DecimalValue(s) >= 1
  {
    if |s| > 1 {
      LeadingDigitBound(s[..|s| - 1]);
    }
  }

  /** Spelling the value of a digit string without leading zeros gives the
      string back. */
  lemma {:induction false} DecimalValueString(s: string)
    requires |s| > 0 && AllDigits(s) && (|s| == 1 || s[0] != '0')
    ensures DecimalString(DecimalValue(s)) == s
  {
    var v := DecimalValue(s);
    var init := s[..|s| - 1];
    var d := DigitValue(s[|s| - 1]);
    if |s| > 1 {
      LeadingDigitBound(init);
      DecimalValueString(init);
      assert v == 10 * DecimalValue(init) + d;
      assert v / 10 == DecimalValue(init) && v % 10 == d;
      assert DigitChar(d) == s[|s| - 1];
      assert s == init + [s[|s| - 1]];
    } else {
      assert DigitChar(d) == s[0];
    }
  }

  /** Lexing the spelling of any value an `int` literal can have yields one
      number token carrying that value, then the end token. */
  lemma LiteralRoundTrip(n: nat)
    requires n <= MaxInt32
    ensures Lex(DecimalString(n)) ==
              Ok([Token(Number, DecimalString(n), Some(n), 1), Token(EOF, "", None, 1)])
  {
    var s := DecimalString(n);
    DecimalStringValue(n);
    assert DigitRunEnd(s, 1) == |s| by {
      DigitRunToEnd(s, 1);
    }
    assert s[0..|s|] == s;
    assert IsDigit(s[0]);
    assert NumberStep(s, 0, 1) == Emit(Token(Number, s, Some(n), 1), |s|);
    assert ScanStep(s, 0, 1) == Emit(Token(Number, s, Some(n), 1), |s|);
    assert Scan(s, |s|, 1) == Ok([Token(EOF, "", None, 1)]);
    assert Scan(s, 0, 1) == Prepend([Token(Number, s, Some(n), 1)], Scan(s, |s|, 1));
    assert [Token(Number, s, Some(n), 1)] + [Token(EOF, "", None, 1)]
        == [Token(Number, s, Some(n), 1), Token(EOF, "", None, 1)];
  }

  lemma {:induction false} DigitRunToEnd(s: string, k: nat)
    requires k <= |s| && AllDigits(s)
    ensures DigitRunEnd(s, k) == |s|
    decreases |s| - k
  {
    if k < |s| {
      DigitRunToEnd(s, k + 1);
    }
  }
}
