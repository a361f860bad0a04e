/** The three stages composed the way the entry point composes them: lex
    the source, parse the tokens, interpret the program in a fresh
    interpreter. A lex or parse error ends the run before any statement
    executes. */
module Pipeline {
  import opened Results
  import opened Values
  import opened Tokens
  import opened LexerSpec
  import opened LexerProperties
  import opened Ast
  import opened Grammar
  import GrammarSoundness
  import ParserProperties
  import opened Semantics
  import opened SemanticsProperties

  datatype RunResult =
    | LexFailed(lexError: LexError)
    | ParseFailed(parseError: ParseError)
    | Ran(completion: Completion)

  /** A well-formed operator token carries one of the ten known symbols. */
  lemma OperatorTokenIsKnown(t: Token)
    requires WellFormedToken(t) && t.kind in BinaryKinds
    ensures t.lexeme in KnownOperators
  {
    var s := t.lexeme;
    if s !in Symbols {
      assert false;
    }
    OperatorSymbols(s);
  }

  /** A token list ending in the sentinel whose other tokens are well
      formed is what the parser expects, and its only operator symbols are
      the ten the evaluator knows. */
  lemma ScannedTokensAreParsable(ts: seq<Token>, last: nat)
    requires EndsWithEof(ts, last)
    requires WellFormedBeforeLast(ts)
    ensures WellFormed(ts)
    ensures OperatorLexemes(ts) <= KnownOperators
  {
    forall k | 0 <= k < |ts| && ts[k].kind == TokenType.Number
      ensures ts[k].literal.Some?
    {
      assert k < |ts| - 1;
    }
    forall k | 0 <= k < |ts| && ts[k].kind in BinaryKinds
      ensures ts[k].lexeme in KnownOperators
    {
      assert k < |ts| - 1;
      OperatorTokenIsKnown(ts[k]);
    }
  }

  /** The lexer's output is what the parser expects, and the only operator
      symbols in it are the ten the evaluator knows. */
  lemma LexedTokensAreParsable(src: string)
    requires Lex(src).Ok?
    ensures WellFormed(Lex(src).value)
    ensures OperatorLexemes(Lex(src).value) <= KnownOperators
  {
    LexEndsWithEof(src);
    ScannedTokensAreParsable(Lex(src).value, 1 + Newlines(src));
  }

  /** A well-formed operator token is spelled with a symbol of its own
      precedence level. */
  lemma OperatorTokenLevel(t: Token)
    requires WellFormedToken(t) && t.kind in BinaryKinds
    ensures t.kind in LevelOperators(ParserProperties.OpLevel(t.lexeme))
  {
    var s := t.lexeme;
    if s !in Symbols {
      assert false;
    }
    OperatorSymbols(s);
    assert s in {"+", "-", "*", "/", "==", "!=", "<", "<=", ">", ">="};
  }

  /** Every operator token the lexer produces has the level of its symbol,
      so the precedence lemmas of the parser apply to lexed source. */
  lemma LexedOperatorsConsistent(src: string)
    requires Lex(src).Ok?
    ensures ParserProperties.ConsistentOperators(Lex(src).value)
  {
    var ts := Lex(src).value;
    LexEndsWithEof(src);
    ScanTokensWellFormed(src, 0, 1);
    forall k | 0 <= k < |ts|
      ensures ParserProperties.LevelledOperator(ts[k])
    {
      if ts[k].kind in BinaryKinds {
        assert k < |ts| - 1;
        OperatorTokenLevel(ts[k]);
      }
    }
  }

  /** In lexed source, an expression without parentheses that is not an
      assignment parses to the tree its operators' precedence and left
      association prescribe, reading as exactly the tokens it consumed. */
  lemma LexedExpressionShaped(src: string, i: nat)
    requires Lex(src).Ok? && i < |Lex(src).value|
    ensures WellFormed(Lex(src).value)
    ensures var ts := Lex(src).value;
            var r := Expression(ts, i);
            r.Ok? && ParserProperties.Ungrouped(ts, i, r.value.next) && !r.value.value.Assign? ==>
              ParserProperties.Ranked(r.value.value, 4)
              && ParserProperties.Yield(r.value.value) == ParserProperties.TokenAtoms(ts, i, r.value.next)
  {
    LexedTokensAreParsable(src);
    LexedOperatorsConsistent(src);
    ParserProperties.ExpressionShaped(Lex(src).value, i);
  }

  /** Lexes, parses and runs `src`; each `while` may iterate `fuel` times. */
  function Run(src: string, fuel: nat): (r: RunResult)
    ensures r.LexFailed? <==> Lex(src).Err?
    ensures r.LexFailed? ==> r.lexError == Lex(src).error
    ensures r.ParseFailed? ==> Lex(src).Ok? && ReportedFrom(Lex(src).value, 0, r.parseError)
    ensures r.ParseFailed? ==> WellFormed(Lex(src).value) && Parse(Lex(src).value) == Err(r.parseError)
    ensures r.Ran? <==> Lex(src).Ok? && WellFormed(Lex(src).value) && Parse(Lex(src).value).Ok?
  {
    match Lex(src)
    case Err(e) => LexFailed(e)
    case Ok(ts) =>
      LexedTokensAreParsable(src);
      GrammarSoundness.ParseSound(ts);
      match Parse(ts)
      case Err(e) => ParseFailed(e)
      case Ok(program) => Ran(Interpret(program, Initial, fuel))
  }

  lemma {:induction false} OpsWithinWider(e: Expr, narrow: set<string>, wide: set<string>)
    requires OpsWithin(e, narrow) && narrow <= wide
    ensures OpsWithin(e, wide)
  {
    match e
    case Literal(_) =>
    case Variable(_) =>
    case Assign(_, value) =>
      OpsWithinWider(value, narrow, wide);
    case Binary(left, _, right) =>
      OpsWithinWider(left, narrow, wide);
      OpsWithinWider(right, narrow, wide);
  }

  lemma {:induction false} ParsableWider(s: Stmt, narrow: set<string>, wide: set<string>)
    requires Parsable(s, narrow) && narrow <= wide
    ensures Parsable(s, wide)
  {
    match s
    case Print(e) =>
      OpsWithinWider(e, narrow, wide);
    case ExprStmt(e) =>
      OpsWithinWider(e, narrow, wide);
    case Var(_, e) =>
      OpsWithinWider(e, narrow, wide);
    case Block(ss) =>
      forall k | 0 <= k < |ss|
        ensures Parsable(ss[k], wide)
      {
        ParsableWider(ss[k], narrow, wide);
      }
    case While(condition, body) =>
      OpsWithinWider(condition, narrow, wide);
      ParsableWider(body, narrow, wide);
  }

  /** A program that came from source text never fails with "Unknown
      operator": that error is unreachable from program text. */
  lemma RunNeverHitsUnknownOperator(src: string, fuel: nat)
    ensures Run(src, fuel).Ran? ==> NoUnknownOperator(Run(src, fuel).completion)
  {
    if Run(src, fuel).Ran? {
      var ts := Lex(src).value;
      LexedTokensAreParsable(src);
      GrammarSoundness.ParseSound(ts);
      var program := Parse(ts).value;
      forall k | 0 <= k < |program|
        ensures Parsable(program[k], KnownOperators)
      {
        ParsableWider(program[k], OperatorLexemes(ts), KnownOperators);
      }
      ExecSeqKnownOperatorsOnly(program, 0, Initial, fuel);
    }
  }
}
