/** The recursive-descent parser as pure functions over a token sequence and
    a position. Each function returns the tree it built and the position of
    the first token it did not consume, or the error the original throws. */
module Grammar {
  import opened Results
  import opened Values
  import opened Tokens
  import opened Ast

  /** The diagnostics the parser raises, one per distinct message. */
  datatype ParseMessage =
    | ExpectedVariableName
    | ExpectedEqualAfterName
    | ExpectedSemicolonAfterDeclaration
    | ExpectedSemicolonAfterValue
    | ExpectedSemicolonAfterExpression
    | ExpectedRightBrace
    | ExpectedRightParen
    | ExpectedExpression
    | InvalidAssignmentTarget

  /** A parse error names the token it was raised at by line and lexeme. */
  datatype ParseError = ParseError(line: nat, lexeme: string, message: ParseMessage)

  datatype Parsed<+T> = Parsed(value: T, next: nat)

  type PResult<+T> = Result<Parsed<T>, ParseError>

  /** What the parser needs of its input: the lexer's end sentinel last, and
      a value on every number token. */
  predicate WellFormed(ts: seq<Token>)
  {
    && |ts| > 0
    && ts[|ts| - 1].kind == EOF
    && forall k | 0 <= k < |ts| :: ts[k].kind == TokenType.Number ==> ts[k].literal.Some?
  }

  predicate AtEnd(ts: seq<Token>, i: nat)
    requires i < |ts|
  {
    ts[i].kind == EOF
  }

  /** The current token is of kind `kind`; never true at the end. */
  predicate Check(ts: seq<Token>, i: nat, kind: TokenType)
    requires i < |ts|
  {
    !AtEnd(ts, i) && ts[i].kind == kind
  }

  /** A token that is not the sentinel has a successor. */
  lemma NotLast(ts: seq<Token>, i: nat)
    requires WellFormed(ts) && i < |ts| && !AtEnd(ts, i)
    ensures i + 1 < |ts|
  {
  }

  function ErrorAt(ts: seq<Token>, i: nat, message: ParseMessage): ParseError
    requires i < |ts|
  {
    ParseError(ts[i].line, ts[i].lexeme, message)
  }

  /** `e` names, by line and lexeme, a token at or after position `i`. */
  predicate ReportedFrom(ts: seq<Token>, i: nat, e: ParseError)
  {
    exists k | i <= k < |ts| :: e == ErrorAt(ts, k, e.message)
  }

  /** The binary operator kinds of each precedence level, loosest (4,
      equality) to tightest (1, factor). */
  function LevelOperators(level: nat): set<TokenType>
  {
    if level == 4 then {EqualEqual, BangEqual}
    else if level == 3 then {Less, LessEqual, Greater, GreaterEqual}
    else if level == 2 then {Plus, Minus}
    else if level == 1 then {Star, Slash}
    else {}
  }

  /** The operator kinds of all four levels. */
  const BinaryKinds: set<TokenType> := {Star, Slash, Plus, Minus, Less, LessEqual, Greater, GreaterEqual, EqualEqual, BangEqual}

  /** The texts of the operator tokens in `ts`: the only operator symbols
      a parse of `ts` can put in a tree. */
  function OperatorLexemes(ts: seq<Token>): set<string>
  {
    set k | 0 <= k < |ts| && ts[k].kind in BinaryKinds :: ts[k].lexeme
  }

  lemma InOperatorLexemes(ts: seq<Token>, i: nat, level: nat)
    requires i < |ts| && 1 <= level <= 4 && ts[i].kind in LevelOperators(level)
    ensures ts[i].lexeme in OperatorLexemes(ts)
  {
  }

  // ---- Expressions ----------------------------------------------------------

  function Expression(ts: seq<Token>, i: nat): (r: PResult<Expr>)
    requires WellFormed(ts) && i < |ts|
    ensures r.Ok? ==> i < r.value.next < |ts|
    decreases |ts| - i, 11
  {
    Assignment(ts, i)
  }

  /** An equality-level expression, then, if `=` follows, the right-hand
      side parsed as another assignment (right associative); only a bare
      variable may stand on the left. */
  function Assignment(ts: seq<Token>, i: nat): (r: PResult<Expr>)
    requires WellFormed(ts) && i < |ts|
    ensures r.Ok? ==> i < r.value.next < |ts|
    decreases |ts| - i, 10
  {
    match BinaryLevel(ts, i, 4)
    case Err(e) => Err(e)
    case Ok(Parsed(target, j)) =>
      if Check(ts, j, Equal) then
        NotLast(ts, j);
        match Assignment(ts, j + 1)
        case Err(e) => Err(e)
        case Ok(Parsed(value, k)) =>
          if target.Variable? then Ok(Parsed(Assign(target.name, value), k))
          else Err(ErrorAt(ts, j, InvalidAssignmentTarget))
      else Ok(Parsed(target, j))
  }

  /** The operand of a level: the next tighter level, or a primary below
      factor. */
  function Operand(ts: seq<Token>, i: nat, level: nat): (r: PResult<Expr>)
    requires WellFormed(ts) && i < |ts| && 1 <= level <= 4
    ensures r.Ok? ==> i < r.value.next < |ts|
    decreases |ts| - i, 2 * level
  {
    if level == 1 then Primary(ts, i) else BinaryLevel(ts, i, level - 1)
  }

  /** One precedence level (equality, comparison, term or factor): an operand
      followed by any number of operator-operand pairs. */
  function BinaryLevel(ts: seq<Token>, i: nat, level: nat): (r: PResult<Expr>)
    requires WellFormed(ts) && i < |ts| && 1 <= level <= 4
    ensures r.Ok? ==> i < r.value.next < |ts|
    decreases |ts| - i, 2 * level + 1
  {
    match Operand(ts, i, level)
    case Err(e) => Err(e)
    case Ok(Parsed(left, j)) => LevelRest(ts, j, level, left)
  }

  /** The loop of a level: while an operator of the level is current, read
      the next operand and make it the right child of a new node whose left
      child is everything read so far (left associative). */
  function LevelRest(ts: seq<Token>, i: nat, level: nat, left: Expr): (r: PResult<Expr>)
    requires WellFormed(ts) && i < |ts| && 1 <= level <= 4
    ensures r.Ok? ==> i <= r.value.next < |ts|
    decreases |ts| - i, 2 * level + 1
  {
    if !AtEnd(ts, i) && ts[i].kind in LevelOperators(level) then
      NotLast(ts, i);
      match Operand(ts, i + 1, level)
      case Err(e) => Err(e)
      case Ok(Parsed(right, j)) => LevelRest(ts, j, level, Binary(left, ts[i].lexeme, right))
    else
      Ok(Parsed(left, i))
  }

  /** A number, a variable or a parenthesised expression. */
  function Primary(ts: seq<Token>, i: nat): (r: PResult<Expr>)
    requires WellFormed(ts) && i < |ts|
    ensures r.Ok? ==> i < r.value.next < |ts|
    decreases |ts| - i, 0
  {
    if Check(ts, i, TokenType.Number) then
      NotLast(ts, i);
      Ok(Parsed(Literal(ts[i].literal.value), i + 1))
    else if Check(ts, i, Identifier) then
      NotLast(ts, i);
      Ok(Parsed(Variable(ts[i].lexeme), i + 1))
    else if Check(ts, i, LeftParen) then
      NotLast(ts, i);
      match Expression(ts, i + 1)
      case Err(e) => Err(e)
      case Ok(Parsed(e, j)) =>
        if Check(ts, j, RightParen) then
          NotLast(ts, j);
          Ok(Parsed(e, j + 1))
        else Err(ErrorAt(ts, j, ExpectedRightParen))
    else
      Err(ErrorAt(ts, i, ExpectedExpression))
  }

  // ---- Statements -----------------------------------------------------------

  /** An expression followed by `;`. */
  function Terminated(ts: seq<Token>, i: nat, message: ParseMessage): (r: PResult<Expr>)
    requires WellFormed(ts) && i < |ts|
    ensures r.Ok? ==> i < r.value.next < |ts|
    ensures r.Ok? ==> ts[r.value.next - 1].kind == Semicolon
  {
    match Expression(ts, i)
    case Err(e) => Err(e)
    case Ok(Parsed(e, j)) =>
      if Check(ts, j, Semicolon) then
        NotLast(ts, j);
        Ok(Parsed(e, j + 1))
      else Err(ErrorAt(ts, j, message))
  }

  /** A statement or, after `let`, a variable declaration. */
  function Declaration(ts: seq<Token>, i: nat): (r: PResult<Stmt>)
    requires WellFormed(ts) && i < |ts|
    ensures r.Ok? ==> i < r.value.next < |ts|
    decreases |ts| - i, 3
  {
    if Check(ts, i, Let) then
      NotLast(ts, i);
      VarDeclaration(ts, i + 1)
    else Statement(ts, i)
  }

  /** The part of `let name = initializer;` after `let`. */
  function VarDeclaration(ts: seq<Token>, i: nat): (r: PResult<Stmt>)
    requires WellFormed(ts) && i < |ts|
    ensures r.Ok? ==> i < r.value.next < |ts| && r.value.value.Var?
    ensures r.Ok? ==> && ts[i].kind == Identifier && r.value.value.name == ts[i].lexeme
                      && ts[i + 1].kind == Equal && ts[r.value.next - 1].kind == Semicolon
  {
    if !Check(ts, i, Identifier) then Err(ErrorAt(ts, i, ExpectedVariableName))
    else
      NotLast(ts, i);
      if !Check(ts, i + 1, Equal) then Err(ErrorAt(ts, i + 1, ExpectedEqualAfterName))
      else
        NotLast(ts, i + 1);
        match Terminated(ts, i + 2, ExpectedSemicolonAfterDeclaration)
        case Err(e) => Err(e)
        case Ok(Parsed(init, j)) => Ok(Parsed(Var(ts[i].lexeme, init), j))
  }

  /** A `print`, `while` or block statement by its first token, an
      expression statement otherwise; never a declaration. */
  function Statement(ts: seq<Token>, i: nat): (r: PResult<Stmt>)
    requires WellFormed(ts) && i < |ts|
    ensures r.Ok? ==> i < r.value.next < |ts| && !r.value.value.Var?
    decreases |ts| - i, 2
  {
    if Check(ts, i, TokenType.Print) then
      NotLast(ts, i);
      PrintStatement(ts, i + 1)
    else if Check(ts, i, TokenType.While) then
      NotLast(ts, i);
      WhileStatement(ts, i + 1)
    else if Check(ts, i, LeftBrace) then
      NotLast(ts, i);
      BlockStatement(ts, i + 1)
    else
      ExpressionStatement(ts, i)
  }

  /** The part of `print value;` after `print`. */
  function PrintStatement(ts: seq<Token>, i: nat): (r: PResult<Stmt>)
    requires WellFormed(ts) && i < |ts|
    ensures r.Ok? ==> i < r.value.next < |ts| && r.value.value.Print?
    ensures r.Ok? ==> ts[r.value.next - 1].kind == Semicolon
  {
    match Terminated(ts, i, ExpectedSemicolonAfterValue)
    case Err(e) => Err(e)
    case Ok(Parsed(e, j)) => Ok(Parsed(Stmt.Print(e), j))
  }

  /** `expression;` */
  function ExpressionStatement(ts: seq<Token>, i: nat): (r: PResult<Stmt>)
    requires WellFormed(ts) && i < |ts|
    ensures r.Ok? ==> i < r.value.next < |ts| && r.value.value.ExprStmt?
    ensures r.Ok? ==> ts[r.value.next - 1].kind == Semicolon
  {
    match Terminated(ts, i, ExpectedSemicolonAfterExpression)
    case Err(e) => Err(e)
    case Ok(Parsed(e, j)) => Ok(Parsed(ExprStmt(e), j))
  }

  /** The part of `while condition body` after `while`: no parentheses of
      its own, and the body is a statement, not a declaration. */
  function WhileStatement(ts: seq<Token>, i: nat): (r: PResult<Stmt>)
    requires WellFormed(ts) && i < |ts|
    ensures r.Ok? ==> i < r.value.next < |ts| && r.value.value.While?
    decreases |ts| - i, 1
  {
    match Expression(ts, i)
    case Err(e) => Err(e)
    case Ok(Parsed(condition, j)) =>
      match Statement(ts, j)
      case Err(e) => Err(e)
      case Ok(Parsed(body, k)) => Ok(Parsed(Stmt.While(condition, body), k))
  }

  /** The part of a block after `{`. */
  function BlockStatement(ts: seq<Token>, i: nat): (r: PResult<Stmt>)
    requires WellFormed(ts) && i < |ts|
    ensures r.Ok? ==> i < r.value.next < |ts| && r.value.value.Block?
    ensures r.Ok? ==> ts[r.value.next - 1].kind == RightBrace
    decreases |ts| - i, 5
  {
    BlockRest(ts, i, [])
  }

  /** The loop of a block: declarations until `}` or the end, then `}`.
      `done` holds the declarations read so far. */
  function BlockRest(ts: seq<Token>, i: nat, done: seq<Stmt>): (r: PResult<Stmt>)
    requires WellFormed(ts) && i < |ts|
    ensures r.Ok? ==> i < r.value.next < |ts| && r.value.value.Block?
    ensures r.Ok? ==> ts[r.value.next - 1].kind == RightBrace
    decreases |ts| - i, 4
  {
    if !Check(ts, i, RightBrace) && !AtEnd(ts, i) then
      match Declaration(ts, i)
      case Err(e) => Err(e)
      case Ok(Parsed(d, j)) => BlockRest(ts, j, done + [d])
    else if Check(ts, i, RightBrace) then
      NotLast(ts, i);
      Ok(Parsed(Block(done), i + 1))
    else
      Err(ErrorAt(ts, i, ExpectedRightBrace))
  }

  /** The loop of the whole program: declarations until the end. */
  function ProgramRest(ts: seq<Token>, i: nat, done: seq<Stmt>): (r: Result<seq<Stmt>, ParseError>)
    requires WellFormed(ts) && i < |ts|
    ensures r.Ok? ==> |done| <= |r.value| && r.value[..|done|] == done
    ensures r.Ok? ==> |r.value| + i <= |done| + |ts| - 1
    decreases |ts| - i
  {
    if AtEnd(ts, i) then Ok(done)
    else
      match Declaration(ts, i)
      case Err(e) => Err(e)
      case Ok(Parsed(d, j)) =>
        var r := ProgramRest(ts, j, done + [d]);
        assert r.Ok? ==> r.value[..|done|] == (r.value[..|done| + 1])[..|done|];
        r
  }

  /** The whole program: a list of declarations up to the end sentinel; the
      first error stops the parse. */
  function Parse(ts: seq<Token>): (r: Result<seq<Stmt>, ParseError>)
    requires WellFormed(ts)
    ensures AtEnd(ts, 0) ==> r == Ok([])
    ensures r.Ok? ==> |r.value| < |ts|
  {
    ProgramRest(ts, 0, [])
  }
}
