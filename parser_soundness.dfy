/** Two promises every grammar rule keeps, proved by induction over the
    rules together: an error names a token at or after the position where
    the rule started, and a tree uses only operator symbols that occur as
    operator tokens in the input (a statement tree is moreover one the
    grammar can produce: no `if`, no declaration as a loop body). */
module GrammarSoundness {
  import opened Results
  import opened Tokens
  import opened Ast
  import opened Grammar

  /** What a rule's result promises about an expression parse from `i`. */
  predicate SoundExpr(ts: seq<Token>, i: nat, r: PResult<Expr>)
  {
    && (r.Err? ==> ReportedFrom(ts, i, r.error))
    && (r.Ok? ==> OpsWithin(r.value.value, OperatorLexemes(ts)))
  }

  /** What a rule's result promises about a statement parse from `i`. */
  predicate SoundStmt(ts: seq<Token>, i: nat, r: PResult<Stmt>)
  {
    && (r.Err? ==> ReportedFrom(ts, i, r.error))
    && (r.Ok? ==> Parsable(r.value.value, OperatorLexemes(ts)))
  }

  /** An error at token `j` is reported from any earlier position. */
  lemma ReportedAt(ts: seq<Token>, i: nat, j: nat, message: ParseMessage)
    requires i <= j < |ts|
    ensures ReportedFrom(ts, i, ErrorAt(ts, j, message))
  {
    assert ErrorAt(ts, j, message) == ErrorAt(ts, j, ErrorAt(ts, j, message).message);
  }

  lemma ReportedEarlier(ts: seq<Token>, i: nat, j: nat, e: ParseError)
    requires i <= j && ReportedFrom(ts, j, e)
    ensures ReportedFrom(ts, i, e)
  {
    var k :| j <= k < |ts| && e == ErrorAt(ts, k, e.message);
    assert i <= k;
  }

  lemma SoundStmtEarlier(ts: seq<Token>, i: nat, j: nat, r: PResult<Stmt>)
    requires i <= j && SoundStmt(ts, j, r)
    ensures SoundStmt(ts, i, r)
  {
    if r.Err? {
      ReportedEarlier(ts, i, j, r.error);
    }
  }

  // ---- Expressions ----------------------------------------------------------

  lemma {:induction false} ExpressionSound(ts: seq<Token>, i: nat)
    requires WellFormed(ts) && i < |ts|
    ensures SoundExpr(ts, i, Expression(ts, i))
    decreases |ts| - i, 11
  {
    AssignmentSound(ts, i);
  }

  lemma {:induction false} AssignmentSound(ts: seq<Token>, i: nat)
    requires WellFormed(ts) && i < |ts|
    ensures SoundExpr(ts, i, Assignment(ts, i))
    decreases |ts| - i, 10
  {
    BinaryLevelSound(ts, i, 4);
    match BinaryLevel(ts, i, 4)
    case Err(_) =>
    case Ok(Parsed(target, j)) =>
      if Check(ts, j, Equal) {
        NotLast(ts, j);
        AssignmentSound(ts, j + 1);
        match Assignment(ts, j + 1)
        case Err(e) =>
          ReportedEarlier(ts, i, j + 1, e);
        case Ok(Parsed(value, k)) =>
          if !target.Variable? {
            ReportedAt(ts, i, j, InvalidAssignmentTarget);
          }
      }
  }

  lemma {:induction false} OperandSound(ts: seq<Token>, i: nat, level: nat)
    requires WellFormed(ts) && i < |ts| && 1 <= level <= 4
    ensures SoundExpr(ts, i, Operand(ts, i, level))
    decreases |ts| - i, 2 * level
  {
    if level == 1 {
      PrimarySound(ts, i);
    } else {
      BinaryLevelSound(ts, i, level - 1);
    }
  }

  lemma {:induction false} BinaryLevelSound(ts: seq<Token>, i: nat, level: nat)
    requires WellFormed(ts) && i < |ts| && 1 <= level <= 4
    ensures SoundExpr(ts, i, BinaryLevel(ts, i, level))
    decreases |ts| - i, 2 * level + 1
  {
    OperandSound(ts, i, level);
    match Operand(ts, i, level)
    case Err(_) =>
    case Ok(Parsed(left, j)) =>
      LevelRestSound(ts, j, level, left);
      if BinaryLevel(ts, i, level).Err? {
        ReportedEarlier(ts, i, j, BinaryLevel(ts, i, level).error);
      }
  }

  /** The loop of a level keeps a tree over the input's operators. */
  lemma {:induction false} LevelRestSound(ts: seq<Token>, i: nat, level: nat, left: Expr)
    requires WellFormed(ts) && i < |ts| && 1 <= level <= 4
    requires OpsWithin(left, OperatorLexemes(ts))
    ensures SoundExpr(ts, i, LevelRest(ts, i, level, left))
    decreases |ts| - i, 2 * level + 1
  {
    if !AtEnd(ts, i) && ts[i].kind in LevelOperators(level) {
      NotLast(ts, i);
      InOperatorLexemes(ts, i, level);
      OperandSound(ts, i + 1, level);
      match Operand(ts, i + 1, level)
      case Err(e) =>
        ReportedEarlier(ts, i, i + 1, e);
      case Ok(Parsed(right, j)) =>
        LevelRestSound(ts, j, level, Binary(left, ts[i].lexeme, right));
        if LevelRest(ts, i, level, left).Err? {
          ReportedEarlier(ts, i, j, LevelRest(ts, i, level, left).error);
        }
    }
  }

  lemma {:induction false} PrimarySound(ts: seq<Token>, i: nat)
    requires WellFormed(ts) && i < |ts|
    ensures SoundExpr(ts, i, Primary(ts, i))
    decreases |ts| - i, 0
  {
    if Check(ts, i, TokenType.Number) || Check(ts, i, Identifier) {
    } else if Check(ts, i, LeftParen) {
      NotLast(ts, i);
      ExpressionSound(ts, i + 1);
      match Expression(ts, i + 1)
      case Err(e) =>
        ReportedEarlier(ts, i, i + 1, e);
      case Ok(Parsed(e, j)) =>
        if !Check(ts, j, RightParen) {
          ReportedAt(ts, i, j, ExpectedRightParen);
        }
    } else {
      ReportedAt(ts, i, i, ExpectedExpression);
    }
  }

  // ---- Statements -----------------------------------------------------------

  lemma TerminatedSound(ts: seq<Token>, i: nat, message: ParseMessage)
    requires WellFormed(ts) && i < |ts|
    ensures SoundExpr(ts, i, Terminated(ts, i, message))
  {
    ExpressionSound(ts, i);
    match Expression(ts, i)
    case Err(_) =>
    case Ok(Parsed(e, j)) =>
      if !Check(ts, j, Semicolon) {
        ReportedAt(ts, i, j, message);
      }
  }

  lemma {:induction false} DeclarationSound(ts: seq<Token>, i: nat)
    requires WellFormed(ts) && i < |ts|
    ensures SoundStmt(ts, i, Declaration(ts, i))
    decreases |ts| - i, 3
  {
    if Check(ts, i, Let) {
      NotLast(ts, i);
      var r := VarDeclaration(ts, i + 1);
      VarDeclarationSound(ts, i + 1);
      SoundStmtEarlier(ts, i, i + 1, r);
      assert Declaration(ts, i) == r;
    } else {
      var r := Statement(ts, i);
      StatementSound(ts, i);
      assert Declaration(ts, i) == r;
    }
  }

  lemma VarDeclarationSound(ts: seq<Token>, i: nat)
    requires WellFormed(ts) && i < |ts|
    ensures SoundStmt(ts, i, VarDeclaration(ts, i))
  {
    if !Check(ts, i, Identifier) {
      ReportedAt(ts, i, i, ExpectedVariableName);
    } else {
      NotLast(ts, i);
      if !Check(ts, i + 1, Equal) {
        ReportedAt(ts, i, i + 1, ExpectedEqualAfterName);
      } else {
        NotLast(ts, i + 1);
        TerminatedSound(ts, i + 2, ExpectedSemicolonAfterDeclaration);
        if VarDeclaration(ts, i).Err? {
          ReportedEarlier(ts, i, i + 2, VarDeclaration(ts, i).error);
        }
      }
    }
  }

  lemma {:induction false} StatementSound(ts: seq<Token>, i: nat)
    requires WellFormed(ts) && i < |ts|
    ensures SoundStmt(ts, i, Statement(ts, i))
    decreases |ts| - i, 2
  {
    if Check(ts, i, TokenType.Print) {
      NotLast(ts, i);
      PrintStatementSound(ts, i + 1);
      SoundStmtEarlier(ts, i, i + 1, Statement(ts, i));
    } else if Check(ts, i, TokenType.While) {
      NotLast(ts, i);
      WhileStatementSound(ts, i + 1);
      SoundStmtEarlier(ts, i, i + 1, Statement(ts, i));
    } else if Check(ts, i, LeftBrace) {
      NotLast(ts, i);
      BlockRestSound(ts, i + 1, []);
      assert Statement(ts, i) == BlockStatement(ts, i + 1) == BlockRest(ts, i + 1, []);
      SoundStmtEarlier(ts, i, i + 1, Statement(ts, i));
    } else {
      ExpressionStatementSound(ts, i);
    }
  }

  lemma PrintStatementSound(ts: seq<Token>, i: nat)
    requires WellFormed(ts) && i < |ts|
    ensures SoundStmt(ts, i, PrintStatement(ts, i))
  {
    TerminatedSound(ts, i, ExpectedSemicolonAfterValue);
  }

  lemma ExpressionStatementSound(ts: seq<Token>, i: nat)
    requires WellFormed(ts) && i < |ts|
    ensures SoundStmt(ts, i, ExpressionStatement(ts, i))
  {
    TerminatedSound(ts, i, ExpectedSemicolonAfterExpression);
  }

  lemma {:induction false} WhileStatementSound(ts: seq<Token>, i: nat)
    requires WellFormed(ts) && i < |ts|
    ensures SoundStmt(ts, i, WhileStatement(ts, i))
    decreases |ts| - i, 1
  {
    ExpressionSound(ts, i);
    match Expression(ts, i)
    case Err(_) =>
    case Ok(Parsed(condition, j)) =>
      StatementSound(ts, j);
      if WhileStatement(ts, i).Err? {
        ReportedEarlier(ts, i, j, WhileStatement(ts, i).error);
      }
  }

  /** The loop of a block: the declarations read so far and the ones still
      to come are all producible. */
  lemma {:induction false} BlockRestSound(ts: seq<Token>, i: nat, done: seq<Stmt>)
    requires WellFormed(ts) && i < |ts|
    requires forall k | 0 <= k < |done| :: Parsable(done[k], OperatorLexemes(ts))
    ensures SoundStmt(ts, i, BlockRest(ts, i, done))
    decreases |ts| - i, 4
  {
    if !Check(ts, i, RightBrace) && !AtEnd(ts, i) {
      DeclarationSound(ts, i);
      match Declaration(ts, i)
      case Err(_) =>
      case Ok(Parsed(d, j)) =>
        assert forall k | 0 <= k < |done + [d]| :: (done + [d])[k] == if k < |done| then done[k] else d;
        BlockRestSound(ts, j, done + [d]);
        if BlockRest(ts, i, done).Err? {
          ReportedEarlier(ts, i, j, BlockRest(ts, i, done).error);
        }
    } else if !Check(ts, i, RightBrace) {
      ReportedAt(ts, i, i, ExpectedRightBrace);
    }
  }

  /** The statements of a parsed program are all producible, and a failed
      parse names a token at or after where it started. */
  lemma {:induction false} ProgramRestSound(ts: seq<Token>, i: nat, done: seq<Stmt>)
    requires WellFormed(ts) && i < |ts|
    requires forall k | 0 <= k < |done| :: Parsable(done[k], OperatorLexemes(ts))
    ensures var r := ProgramRest(ts, i, done);
            && (r.Err? ==> ReportedFrom(ts, i, r.error))
            && (r.Ok? ==> forall k | 0 <= k < |r.value| :: Parsable(r.value[k], OperatorLexemes(ts)))
    decreases |ts| - i
  {
    if !AtEnd(ts, i) {
      DeclarationSound(ts, i);
      match Declaration(ts, i)
      case Err(_) =>
      case Ok(Parsed(d, j)) =>
        assert forall k | 0 <= k < |done + [d]| :: (done + [d])[k] == if k < |done| then done[k] else d;
        ProgramRestSound(ts, j, done + [d]);
        if ProgramRest(ts, i, done).Err? {
          ReportedEarlier(ts, i, j, ProgramRest(ts, i, done).error);
        }
    }
  }

  /** Every statement of a parsed program is producible by the grammar and
      uses only the input's operator symbols; a parse error names a token
      of the input. */
  lemma ParseSound(ts: seq<Token>)
    requires WellFormed(ts)
    ensures Parse(ts).Ok? ==> forall k | 0 <= k < |Parse(ts).value| :: Parsable(Parse(ts).value[k], OperatorLexemes(ts))
    ensures Parse(ts).Err? ==> ReportedFrom(ts, 0, Parse(ts).error)
  {
    ProgramRestSound(ts, 0, []);
  }
}
