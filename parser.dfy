/** The parser as the original writes it: a cursor over the token list,
    advanced by `Match`, `Consume` and `Advance`, with one method per
    grammar rule. A thrown parse error becomes an `Err` result. Every rule
    is proved to agree with its function in `Grammar`. */
module Parsing {
  import opened Results
  import opened Values
  import opened Tokens
  import opened Ast
  import opened Grammar

  class Parser {
    const tokens: seq<Token>
    var current: nat

    predicate Valid()
      reads this
    {
      WellFormed(tokens) && current < |tokens|
    }

    constructor (tokens: seq<Token>)
      requires WellFormed(tokens)
      ensures Valid() && this.tokens == tokens && current == 0
    {
      this.tokens := tokens;
      current := 0;
    }

    /** A rule's outcome matches its specification: the same tree with the
        cursor on the first token not consumed, or the same error. */
    predicate Agrees<T(==)>(r: Result<T, ParseError>, spec: PResult<T>)
      reads this
    {
      match spec
      case Ok(p) => r == Ok(p.value) && current == p.next
      case Err(e) => r == Err(e)
    }

    /** Declarations until the end sentinel; the first error is the result. */
    method Parse() returns (r: Result<seq<Stmt>, ParseError>)
      requires Valid()
      modifies this
      ensures r == ProgramRest(tokens, old(current), [])
      ensures Valid() && (r.Ok? ==> AtEnd(tokens, current))
    {
      ghost var start := current;
      var statements: seq<Stmt> := [];
      while !IsAtEnd()
        invariant Valid()
        invariant ProgramRest(tokens, current, statements) == ProgramRest(tokens, start, [])
        decreases |tokens| - current
      {
        var d := Declaration();
        if d.Err? {
          return Err(d.error);
        }
        statements := statements + [d.value];
      }
      return Ok(statements);
    }

    method Declaration() returns (r: Result<Stmt, ParseError>)
      requires Valid()
      modifies this
      ensures Valid()
      ensures Agrees(r, Grammar.Declaration(tokens, old(current)))
      decreases |tokens| - current, 3
    {
      var isLet := Match([Let]);
      if isLet {
        r := VarDeclaration();
      } else {
        r := Statement();
      }
    }

    method VarDeclaration() returns (r: Result<Stmt, ParseError>)
      requires Valid()
      modifies this
      ensures Valid()
      ensures Agrees(r, Grammar.VarDeclaration(tokens, old(current)))
    {
      var name := Consume(Identifier, ExpectedVariableName);
      if name.Err? {
        return Err(name.error);
      }
      var equals := Consume(Equal, ExpectedEqualAfterName);
      if equals.Err? {
        return Err(equals.error);
      }
      var initializer := Expression();
      if initializer.Err? {
        return Err(initializer.error);
      }
      var semicolon := Consume(Semicolon, ExpectedSemicolonAfterDeclaration);
      if semicolon.Err? {
        return Err(semicolon.error);
      }
      return Ok(Var(name.value.lexeme, initializer.value));
    }

    method Statement() returns (r: Result<Stmt, ParseError>)
      requires Valid()
      modifies this
      ensures Valid()
      ensures Agrees(r, Grammar.Statement(tokens, old(current)))
      decreases |tokens| - current, 2
    {
      ghost var start := current;
      var isPrint := Match([TokenType.Print]);
      if isPrint {
        assert Grammar.Statement(tokens, start) == Grammar.PrintStatement(tokens, current);
        r := PrintStatement();
        return;
      }
      var isWhile := Match([TokenType.While]);
      if isWhile {
        assert Grammar.Statement(tokens, start) == Grammar.WhileStatement(tokens, current);
        r := WhileStatement();
        return;
      }
      var isBlock := Match([LeftBrace]);
      if isBlock {
        assert Grammar.Statement(tokens, start) == Grammar.BlockStatement(tokens, current);
        r := BlockStatement();
        return;
      }
      assert Grammar.Statement(tokens, start) == Grammar.ExpressionStatement(tokens, current);
      r := ExpressionStatement();
    }

    method PrintStatement() returns (r: Result<Stmt, ParseError>)
      requires Valid()
      modifies this
      ensures Valid()
      ensures Agrees(r, Grammar.PrintStatement(tokens, old(current)))
    {
      var value := Expression();
      if value.Err? {
        return Err(value.error);
      }
      var semicolon := Consume(Semicolon, ExpectedSemicolonAfterValue);
      if semicolon.Err? {
        return Err(semicolon.error);
      }
      return Ok(Stmt.Print(value.value));
    }

    method ExpressionStatement() returns (r: Result<Stmt, ParseError>)
      requires Valid()
      modifies this
      ensures Valid()
      ensures Agrees(r, Grammar.ExpressionStatement(tokens, old(current)))
    {
      var expr := Expression();
      if expr.Err? {
        return Err(expr.error);
      }
      var semicolon := Consume(Semicolon, ExpectedSemicolonAfterExpression);
      if semicolon.Err? {
        return Err(semicolon.error);
      }
      return Ok(ExprStmt(expr.value));
    }

    method WhileStatement() returns (r: Result<Stmt, ParseError>)
      requires Valid()
      modifies this
      ensures Valid()
      ensures Agrees(r, Grammar.WhileStatement(tokens, old(current)))
      decreases |tokens| - current, 1
    {
      var condition := Expression();
      if condition.Err? {
        return Err(condition.error);
      }
      var body := Statement();
      if body.Err? {
        return Err(body.error);
      }
      return Ok(Stmt.While(condition.value, body.value));
    }

    method BlockStatement() returns (r: Result<Stmt, ParseError>)
      requires Valid()
      modifies this
      ensures Valid()
      ensures Agrees(r, Grammar.BlockStatement(tokens, old(current)))
      decreases |tokens| - current, 5
    {
      ghost var start := current;
      var statements: seq<Stmt> := [];
      while !Check(RightBrace) && !IsAtEnd()
        invariant Valid()
        invariant BlockRest(tokens, current, statements) == BlockRest(tokens, start, [])
        decreases |tokens| - current
      {
        var d := Declaration();
        if d.Err? {
          return Err(d.error);
        }
        statements := statements + [d.value];
      }
      var brace := Consume(RightBrace, ExpectedRightBrace);
      if brace.Err? {
        return Err(brace.error);
      }
      return Ok(Block(statements));
    }

    // ---- Expressions ----

    method Expression() returns (r: Result<Expr, ParseError>)
      requires Valid()
      modifies this
      ensures Valid()
      ensures Agrees(r, Grammar.Expression(tokens, old(current)))
      decreases |tokens| - current, 11
    {
      r := Assignment();
    }

    method Assignment() returns (r: Result<Expr, ParseError>)
      requires Valid()
      modifies this
      ensures Valid()
      ensures Agrees(r, Grammar.Assignment(tokens, old(current)))
      decreases |tokens| - current, 10
    {
      var expr := Equality();
      if expr.Err? {
        return expr;
      }
      var isAssign := Match([Equal]);
      if isAssign {
        var equals := Previous();
        var value := Assignment();
        if value.Err? {
          return value;
        }
        if expr.value.Variable? {
          return Ok(Assign(expr.value.name, value.value));
        }
        return Err(Error(equals, InvalidAssignmentTarget));
      }
      return expr;
    }

    method Equality() returns (r: Result<Expr, ParseError>)
      requires Valid()
      modifies this
      ensures Valid()
      ensures Agrees(r, BinaryLevel(tokens, old(current), 4))
      decreases |tokens| - current, 9
    {
      ghost var start := current;
      var left := Comparison();
      if left.Err? {
        return left;
      }
      var expr := left.value;
      while true
        invariant Valid() && start < current
        invariant LevelRest(tokens, current, 4, expr) == BinaryLevel(tokens, start, 4)
        decreases |tokens| - current
      {
        var isOperator := Match([EqualEqual, BangEqual]);
        if !isOperator {
          break;
        }
        var op := Previous();
        var right := Comparison();
        if right.Err? {
          return right;
        }
        expr := Binary(expr, op.lexeme, right.value);
      }
      return Ok(expr);
    }

    method Comparison() returns (r: Result<Expr, ParseError>)
      requires Valid()
      modifies this
      ensures Valid()
      ensures Agrees(r, BinaryLevel(tokens, old(current), 3))
      decreases |tokens| - current, 7
    {
      ghost var start := current;
      var left := Term();
      if left.Err? {
        return left;
      }
      var expr := left.value;
      while true
        invariant Valid() && start < current
        invariant LevelRest(tokens, current, 3, expr) == BinaryLevel(tokens, start, 3)
        decreases |tokens| - current
      {
        var isOperator := Match([Less, LessEqual, Greater, GreaterEqual]);
        if !isOperator {
          break;
        }
        var op := Previous();
        var right := Term();
        if right.Err? {
          return right;
        }
        expr := Binary(expr, op.lexeme, right.value);
      }
      return Ok(expr);
    }

    method Term() returns (r: Result<Expr, ParseError>)
      requires Valid()
      modifies this
      ensures Valid()
      ensures Agrees(r, BinaryLevel(tokens, old(current), 2))
      decreases |tokens| - current, 5
    {
      ghost var start := current;
      var left := Factor();
      if left.Err? {
        return left;
      }
      var expr := left.value;
      while true
        invariant Valid() && start < current
        invariant LevelRest(tokens, current, 2, expr) == BinaryLevel(tokens, start, 2)
        decreases |tokens| - current
      {
        var isOperator := Match([Plus, Minus]);
        if !isOperator {
          break;
        }
        var op := Previous();
        var right := Factor();
        if right.Err? {
          return right;
        }
        expr := Binary(expr, op.lexeme, right.value);
      }
      return Ok(expr);
    }

    method Factor() returns (r: Result<Expr, ParseError>)
      requires Valid()
      modifies this
      ensures Valid()
      ensures Agrees(r, BinaryLevel(tokens, old(current), 1))
      decreases |tokens| - current, 3
    {
      ghost var start := current;
      var left := Primary();
      if left.Err? {
        return left;
      }
      var expr := left.value;
      while true
        invariant Valid() && start < current
        invariant LevelRest(tokens, current, 1, expr) == BinaryLevel(tokens, start, 1)
        decreases |tokens| - current
      {
        var isOperator := Match([Star, Slash]);
        if !isOperator {
          break;
        }
        var op := Previous();
        var right := Primary();
        if right.Err? {
          return right;
        }
        expr := Binary(expr, op.lexeme, right.value);
      }
      return Ok(expr);
    }

    method Primary() returns (r: Result<Expr, ParseError>)
      requires Valid()
      modifies this
      ensures Valid()
      ensures Agrees(r, Grammar.Primary(tokens, old(current)))
      decreases |tokens| - current, 0
    {
      var isNumber := Match([TokenType.Number]);
      if isNumber {
        return Ok(Literal(Previous().literal.value));
      }
      var isIdentifier := Match([Identifier]);
      if isIdentifier {
        return Ok(Variable(Previous().lexeme));
      }
      var isGroup := Match([LeftParen]);
      if isGroup {
        var expr := Expression();
        if expr.Err? {
          return expr;
        }
        var paren := Consume(RightParen, ExpectedRightParen);
        if paren.Err? {
          return Err(paren.error);
        }
        return expr;
      }
      return Err(Error(Peek(), ExpectedExpression));
    }

    // ---- Helpers ----

    /** Consumes the current token if its kind is one of `kinds`; the end
        sentinel never matches. */
    method Match(kinds: seq<TokenType>) returns (matched: bool)
      requires Valid()
      modifies this
      ensures Valid()
      ensures matched <==> !AtEnd(tokens, old(current)) && tokens[old(current)].kind in kinds
      ensures current == if matched then old(current) + 1 else old(current)
    {
      for k := 0 to |kinds|
        invariant current == old(current)
        invariant forall m | 0 <= m < k :: !Check(kinds[m])
      {
        if Check(kinds[k]) {
          var _ := Advance();
          return true;
        }
      }
      return false;
    }

    predicate Check(kind: TokenType)
      requires Valid()
      reads this
    {
      Grammar.Check(tokens, current, kind)
    }

    /** Moves past the current token unless it is the end sentinel, and
        returns the token before the cursor. */
    method Advance() returns (t: Token)
      requires Valid() && (!IsAtEnd() || current > 0)
      modifies this
      ensures Valid()
      ensures current == if old(IsAtEnd()) then old(current) else old(current) + 1
      ensures t == tokens[current - 1]
    {
      if !IsAtEnd() {
        NotLast(tokens, current);
        current := current + 1;
      }
      return Previous();
    }

    predicate IsAtEnd()
      requires Valid()
      reads this
    {
      Peek().kind == EOF
    }

    function Peek(): Token
      requires Valid()
      reads this
    {
      tokens[current]
    }

    function Previous(): Token
      requires Valid() && current > 0
      reads this
    {
      tokens[current - 1]
    }

    /** Consumes and returns the current token if it is of kind `kind`;
        otherwise fails at the current token and consumes nothing. */
    method Consume(kind: TokenType, message: ParseMessage) returns (r: Result<Token, ParseError>)
      requires Valid()
      modifies this
      ensures Valid()
      ensures Grammar.Check(tokens, old(current), kind) ==>
                r == Ok(tokens[old(current)]) && current == old(current) + 1
      ensures !Grammar.Check(tokens, old(current), kind) ==>
                r == Err(ErrorAt(tokens, old(current), message)) && current == old(current)
    {
      if Check(kind) {
        var t := Advance();
        return Ok(t);
      }
      return Err(Error(Peek(), message));
    }

    function Error(token: Token, message: ParseMessage): ParseError
    {
      ParseError(token.line, token.lexeme, message)
    }
  }

  /** Parses a whole token list with a fresh parser. */
  method ParseTokens(tokens: seq<Token>) returns (r: Result<seq<Stmt>, ParseError>)
    requires WellFormed(tokens)
    ensures r == Grammar.Parse(tokens)
  {
    var parser := new Parser(tokens);
    r := parser.Parse();
  }
}
