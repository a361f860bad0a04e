/** What the parser promises, proved about its specification. */
module ParserProperties {
  import opened Results
  import opened Values
  import opened Tokens
  import opened Ast
  import opened Grammar

  // ---- Failing at the first token ---------------------------------------

  /** A token no primary can start with makes every precedence level fail
      with the primary's own error, at that same token. */
  lemma {:induction false} LevelFailsAtPrimary(ts: seq<Token>, i: nat, level: nat)
    requires WellFormed(ts) && i < |ts| && 1 <= level <= 4
    requires Primary(ts, i).Err?
    ensures BinaryLevel(ts, i, level) == Primary(ts, i)
    decreases level
  {
    if level > 1 {
      LevelFailsAtPrimary(ts, i, level - 1);
    }
  }

  lemma ExpressionFailsAtPrimary(ts: seq<Token>, i: nat)
    requires WellFormed(ts) && i < |ts|
    requires Primary(ts, i).Err?
    ensures Expression(ts, i) == Primary(ts, i)
  {
    LevelFailsAtPrimary(ts, i, 4);
  }

  /** A declaration that starts with no keyword and no `{` is an
      expression statement: an error in its expression is its error. */
  lemma ExpressionStatementFails(ts: seq<Token>, i: nat)
    requires WellFormed(ts) && i < |ts|
    requires !Check(ts, i, Let) && !Check(ts, i, TokenType.Print) && !Check(ts, i, TokenType.While)
    requires !Check(ts, i, LeftBrace) && Expression(ts, i).Err?
    ensures Declaration(ts, i) == Err(Expression(ts, i).error)
  {
  }

  /** There is no production for `if` or `else`: a declaration starting
      with either falls through to an expression statement and fails with
      "Expected expression." at that keyword. */
  lemma NoIfProduction(ts: seq<Token>, i: nat)
    requires WellFormed(ts) && i < |ts|
    requires Check(ts, i, TokenType.If) || Check(ts, i, Else)
    ensures Declaration(ts, i) == Err(ErrorAt(ts, i, ExpectedExpression))
  {
    ExpressionFailsAtPrimary(ts, i);
  }

  /** A loop body is a statement, never a declaration: `let` right after
      the condition fails with "Expected expression." at the `let`. */
  lemma WhileBodyIsNoDeclaration(ts: seq<Token>, i: nat)
    requires WellFormed(ts) && i < |ts|
    requires Expression(ts, i).Ok?
    requires Check(ts, Expression(ts, i).value.next, Let)
    ensures WhileStatement(ts, i) == Err(ErrorAt(ts, Expression(ts, i).value.next, ExpectedExpression))
  {
    ExpressionFailsAtPrimary(ts, Expression(ts, i).value.next);
  }

  // ---- Associativity -------------------------------------------------------

  /** `e` is `base` with zero or more operators from `ops` stacked on its
      left spine: `((base op r1) op r2) ...`. */
  predicate LeftChain(e: Expr, base: Expr, ops: set<string>)
  {
    e == base || (e.Binary? && e.op in ops && LeftChain(e.left, base, ops))
  }

  /** The lexemes of the operator tokens of one precedence level in `ts`. */
  function LevelLexemes(ts: seq<Token>, level: nat): set<string>
  {
    set k | 0 <= k < |ts| && ts[k].kind in LevelOperators(level) :: ts[k].lexeme
  }

  /** The four binary levels fold to the left: what was read before the
      loop ends up at the bottom of the left spine, under one node per
      operator of that level, whose stored operator is the token's
      lexeme. */
  lemma {:induction false} LevelRestFoldsLeft(ts: seq<Token>, i: nat, level: nat, left: Expr)
    requires WellFormed(ts) && i < |ts| && 1 <= level <= 4
    requires LevelRest(ts, i, level, left).Ok?
    ensures LeftChain(LevelRest(ts, i, level, left).value.value, left, LevelLexemes(ts, level))
    decreases |ts| - i
  {
    if !AtEnd(ts, i) && ts[i].kind in LevelOperators(level) {
      NotLast(ts, i);
      var right := Operand(ts, i + 1, level).value;
      var node := Binary(left, ts[i].lexeme, right.value);
      LevelRestFoldsLeft(ts, right.next, level, node);
      LeftChainExtend(LevelRest(ts, right.next, level, node).value.value, node, left, LevelLexemes(ts, level));
    }
  }

  lemma {:induction false} LeftChainExtend(e: Expr, node: Expr, base: Expr, ops: set<string>)
    requires node.Binary? && node.left == base && node.op in ops
    requires LeftChain(e, node, ops)
    ensures LeftChain(e, base, ops)
  {
    if e != node {
      LeftChainExtend(e.left, node, base, ops);
    }
  }

  // ---- Precedence ----------------------------------------------------------

  /** The precedence level of an operator symbol: 4 for equality, 3 for
      comparison, 2 for term, 1 for factor, 0 for anything else. */
  function OpLevel(op: string): nat
  {
    if op in {"==", "!="} then 4
    else if op in {"<", "<=", ">", ">="} then 3
    else if op in {"+", "-"} then 2
    else if op in {"*", "/"} then 1
    else 0
  }

  /** `e` is a tree the binary levels can build at `level` without
      parentheses: a leaf, or a node whose operator is of level at most
      `level`, whose left operand may chain operators of that same level
      (left association) and whose right operand binds strictly tighter. */
  predicate Ranked(e: Expr, level: nat)
  {
    match e
    case Literal(_) => true
    case Variable(_) => true
    case Assign(_, _) => false
    case Binary(left, op, right) =>
      1 <= OpLevel(op) <= level && Ranked(left, OpLevel(op)) && Ranked(right, OpLevel(op) - 1)
  }

  /** One element of the in-order reading of a tree or a token list. */
  datatype Atom = Num(value: Int32) | Name(name: string) | Op(symbol: string)

  /** The in-order reading of a tree: its leaves and operators left to right. */
  function Yield(e: Expr): seq<Atom>
  {
    match e
    case Literal(n) => [Num(n)]
    case Variable(x) => [Name(x)]
    case Binary(left, op, right) => Yield(left) + [Op(op)] + Yield(right)
    case Assign(x, value) => [Name(x), Op("=")] + Yield(value)
  }

  function TokenAtom(t: Token): Atom
  {
    if t.kind == TokenType.Number && t.literal.Some? then Num(t.literal.value)
    else if t.kind == Identifier then Name(t.lexeme)
    else Op(t.lexeme)
  }

  /** The reading of the tokens `ts[i..j]`. */
  function TokenAtoms(ts: seq<Token>, i: nat, j: nat): seq<Atom>
    requires i <= j <= |ts|
    decreases j - i
  {
    if i == j then [] else [TokenAtom(ts[i])] + TokenAtoms(ts, i + 1, j)
  }

  lemma {:induction false} TokenAtomsSplit(ts: seq<Token>, i: nat, j: nat, k: nat)
    requires i <= j <= k <= |ts|
    ensures TokenAtoms(ts, i, k) == TokenAtoms(ts, i, j) + TokenAtoms(ts, j, k)
    decreases j - i
  {
    if i < j {
      TokenAtomsSplit(ts, i + 1, j, k);
    }
  }

  /** Every operator token is spelled with a symbol of its own level, as
      the lexer's tokens are. */
  predicate ConsistentOperators(ts: seq<Token>)
  {
    forall k {:trigger LevelledOperator(ts[k])} | 0 <= k < |ts| :: LevelledOperator(ts[k])
  }

  /** An operator token is spelled with a symbol of its own level. */
  predicate LevelledOperator(t: Token)
  {
    t.kind in BinaryKinds ==> t.kind in LevelOperators(OpLevel(t.lexeme))
  }

  /** No `(` among `ts[i..j]`. */
  predicate Ungrouped(ts: seq<Token>, i: nat, j: nat)
  {
    forall k | i <= k < j && k < |ts| :: ts[k].kind != LeftParen
  }

  lemma UngroupedWithin(ts: seq<Token>, i: nat, j: nat, i': nat, j': nat)
    requires Ungrouped(ts, i, j) && i <= i' && j' <= j
    ensures Ungrouped(ts, i', j')
  {
  }

  lemma LevelOfOperator(ts: seq<Token>, k: nat, level: nat)
    requires ConsistentOperators(ts) && k < |ts| && 1 <= level <= 4 && ts[k].kind in LevelOperators(level)
    ensures ts[k].kind in BinaryKinds && OpLevel(ts[k].lexeme) == level
  {
    assert LevelledOperator(ts[k]);
  }

  /** What a parse of `ts[i..next]` without parentheses builds: a tree
      ranked at `level` that reads as exactly those tokens. */
  predicate Shaped(ts: seq<Token>, i: nat, r: PResult<Expr>, level: nat)
  {
    r.Ok? && i <= r.value.next <= |ts| && Ungrouped(ts, i, r.value.next) ==>
      Ranked(r.value.value, level) && Yield(r.value.value) == TokenAtoms(ts, i, r.value.next)
  }

  lemma PrimaryShaped(ts: seq<Token>, i: nat)
    requires WellFormed(ts) && i < |ts|
    ensures Shaped(ts, i, Primary(ts, i), 0)
  {
    var r := Primary(ts, i);
    if r.Ok? && Ungrouped(ts, i, r.value.next) {
      assert r.value.next == i + 1;
      assert TokenAtoms(ts, i, i + 1) == [TokenAtom(ts[i])];
    }
  }

  lemma {:induction false} OperandShaped(ts: seq<Token>, i: nat, level: nat)
    requires WellFormed(ts) && ConsistentOperators(ts) && i < |ts| && 1 <= level <= 4
    ensures Shaped(ts, i, Operand(ts, i, level), level - 1)
    decreases |ts| - i, 2 * level
  {
    if level == 1 {
      PrimaryShaped(ts, i);
    } else {
      BinaryLevelShaped(ts, i, level - 1);
    }
  }

  /** Precedence and left association of the four binary levels, for all
      inputs without parentheses: the tree a level builds is ranked at that
      level, so a tighter operator never has a looser one below it, and an
      operator of the same level appears only in the left operand; and its
      in-order reading is the tokens it consumed, so no operand or operator
      is dropped, added or moved. */
  lemma {:induction false} BinaryLevelShaped(ts: seq<Token>, i: nat, level: nat)
    requires WellFormed(ts) && ConsistentOperators(ts) && i < |ts| && 1 <= level <= 4
    ensures Shaped(ts, i, BinaryLevel(ts, i, level), level)
    decreases |ts| - i, 2 * level + 1
  {
    var r := BinaryLevel(ts, i, level);
    if r.Ok? && Ungrouped(ts, i, r.value.next) {
      var left := Operand(ts, i, level).value;
      OperandShaped(ts, i, level);
      LevelRestShaped(ts, left.next, level, left.value, i);
    }
  }

  /** One turn of a level's operator loop: the loop goes on with the node
      built from the operand read so far, the operator and the next
      operand. */
  lemma LevelRestTurn(ts: seq<Token>, i: nat, level: nat, left: Expr)
    requires WellFormed(ts) && i < |ts| && 1 <= level <= 4
    requires !AtEnd(ts, i) && ts[i].kind in LevelOperators(level)
    ensures i + 1 < |ts|
    ensures LevelRest(ts, i, level, left).Ok? ==>
              && Operand(ts, i + 1, level).Ok?
              && var right := Operand(ts, i + 1, level).value;
                 LevelRest(ts, i, level, left)
                 == LevelRest(ts, right.next, level, Binary(left, ts[i].lexeme, right.value))
  {
    NotLast(ts, i);
  }

  /** Joining a ranked left operand, an operator of the level and an
      operand of the next tighter level keeps the tree ranked and its
      reading equal to the tokens consumed. */
  lemma NodeShaped(ts: seq<Token>, start: nat, i: nat, next: nat, level: nat, left: Expr, right: Expr)
    requires start <= i < next <= |ts| && 1 <= level <= 4
    requires ts[i].kind in BinaryKinds && OpLevel(ts[i].lexeme) == level
    requires Ranked(left, level) && Yield(left) == TokenAtoms(ts, start, i)
    requires Ranked(right, level - 1) && Yield(right) == TokenAtoms(ts, i + 1, next)
    ensures Ranked(Binary(left, ts[i].lexeme, right), level)
    ensures Yield(Binary(left, ts[i].lexeme, right)) == TokenAtoms(ts, start, next)
  {
    assert TokenAtoms(ts, i, i + 1) == [Op(ts[i].lexeme)];
    TokenAtomsSplit(ts, start, i, i + 1);
    TokenAtomsSplit(ts, start, i + 1, next);
  }

  lemma {:induction false} LevelRestShaped(ts: seq<Token>, i: nat, level: nat, left: Expr, start: nat)
    requires WellFormed(ts) && ConsistentOperators(ts) && i < |ts| && 1 <= level <= 4
    requires start <= i && Ranked(left, level) && Yield(left) == TokenAtoms(ts, start, i)
    ensures Shaped(ts, start, LevelRest(ts, i, level, left), level)
    decreases |ts| - i, 2 * level + 1, 1
  {
    if !AtEnd(ts, i) && ts[i].kind in LevelOperators(level) {
      LevelRestTurnShaped(ts, i, level, left, start);
    }
  }

  /** The turn of the loop that meets an operator of the level. */
  lemma {:induction false} LevelRestTurnShaped(ts: seq<Token>, i: nat, level: nat, left: Expr, start: nat)
    requires WellFormed(ts) && ConsistentOperators(ts) && i < |ts| && 1 <= level <= 4
    requires start <= i && Ranked(left, level) && Yield(left) == TokenAtoms(ts, start, i)
    requires !AtEnd(ts, i) && ts[i].kind in LevelOperators(level)
    ensures Shaped(ts, start, LevelRest(ts, i, level, left), level)
    decreases |ts| - i, 2 * level + 1, 0
  {
    var r := LevelRest(ts, i, level, left);
    if r.Ok? && Ungrouped(ts, start, r.value.next) {
      LevelRestTurn(ts, i, level, left);
      var right := Operand(ts, i + 1, level).value;
      var node := Binary(left, ts[i].lexeme, right.value);
      UngroupedWithin(ts, start, r.value.next, i + 1, right.next);
      OperandShaped(ts, i + 1, level);
      LevelOfOperator(ts, i, level);
      NodeShaped(ts, start, i, right.next, level, left, right.value);
      LevelRestShaped(ts, right.next, level, node, start);
    }
  }



  /** An expression without parentheses is an assignment, or a tree ranked
      at the equality level that reads as the tokens it consumed. */
  lemma ExpressionShaped(ts: seq<Token>, i: nat)
    requires WellFormed(ts) && ConsistentOperators(ts) && i < |ts|
    ensures var r := Expression(ts, i);
            r.Ok? && Ungrouped(ts, i, r.value.next) && !r.value.value.Assign? ==>
              Ranked(r.value.value, 4) && Yield(r.value.value) == TokenAtoms(ts, i, r.value.next)
  {
    BinaryLevelShaped(ts, i, 4);
  }

  /** When `=` follows a left side that parsed, the right side is parsed as
      a whole assignment (right associativity) and an error in it is
      reported first; if it parses, the result is an assignment to the left
      side exactly when that is a variable, and otherwise the error
      "Invalid assignment target." at the `=`. */
  lemma AssignmentTarget(ts: seq<Token>, i: nat)
    requires WellFormed(ts) && i < |ts|
    requires BinaryLevel(ts, i, 4).Ok?
    requires Check(ts, BinaryLevel(ts, i, 4).value.next, Equal)
    ensures var j := BinaryLevel(ts, i, 4).value.next;
            var target := BinaryLevel(ts, i, 4).value.value;
            && (Assignment(ts, j + 1).Err? ==> Assignment(ts, i) == Assignment(ts, j + 1))
            && (Assignment(ts, j + 1).Ok? ==>
                  (Assignment(ts, i).Ok? <==> target.Variable?)
                  && (target.Variable? ==>
                        Assignment(ts, i) == Ok(Parsed(Assign(target.name, Assignment(ts, j + 1).value.value),
                                                       Assignment(ts, j + 1).value.next)))
                  && (!target.Variable? ==> Assignment(ts, i) == Err(ErrorAt(ts, j, InvalidAssignmentTarget))))
  {
    NotLast(ts, BinaryLevel(ts, i, 4).value.next);
  }

  // ---- Blocks and programs --------------------------------------------------

  /** A block needs its `}`: with none left before the end, it fails. */
  lemma UnclosedBlockFails(ts: seq<Token>, i: nat, done: seq<Stmt>)
    requires WellFormed(ts) && i < |ts|
    requires forall k | i <= k < |ts| :: ts[k].kind != RightBrace
    ensures BlockRest(ts, i, done).Err?
  {
  }

  /** A block that reaches the end sentinel fails with
      "Expected '}' after block." at the sentinel. */
  lemma BlockAtEndFails(ts: seq<Token>, i: nat, done: seq<Stmt>)
    requires WellFormed(ts) && i < |ts| && AtEnd(ts, i)
    ensures BlockRest(ts, i, done) == Err(ErrorAt(ts, i, ExpectedRightBrace))
  {
  }

  /** Every outcome of `let name = initializer;` after `let`: a missing
      name, a missing `=` and a missing `;` each fail with their own message
      at the offending token, an error in the initializer is passed on
      unchanged, and otherwise the declaration binds the name to the
      initializer and ends after the `;`. */
  lemma VarDeclarationOutcome(ts: seq<Token>, i: nat)
    requires WellFormed(ts) && i < |ts|
    ensures ts[i].kind != Identifier ==>
              VarDeclaration(ts, i) == Err(ErrorAt(ts, i, ExpectedVariableName))
    ensures ts[i].kind == Identifier && ts[i + 1].kind != Equal ==>
              VarDeclaration(ts, i) == Err(ErrorAt(ts, i + 1, ExpectedEqualAfterName))
    ensures ts[i].kind == Identifier && ts[i + 1].kind == Equal ==>
              match Expression(ts, i + 2)
              case Err(e) => VarDeclaration(ts, i) == Err(e)
              case Ok(Parsed(init, j)) =>
                if ts[j].kind == Semicolon then VarDeclaration(ts, i) == Ok(Parsed(Var(ts[i].lexeme, init), j + 1))
                else VarDeclaration(ts, i) == Err(ErrorAt(ts, j, ExpectedSemicolonAfterDeclaration))
  {
    if ts[i].kind == Identifier {
      NotLast(ts, i);
      if ts[i + 1].kind != EOF {
        NotLast(ts, i + 1);
      }
    }
  }

  /** The program is empty exactly when the first token is the sentinel. */
  lemma ParseEmpty(ts: seq<Token>)
    requires WellFormed(ts)
    ensures Parse(ts) == Ok([]) <==> AtEnd(ts, 0)
  {
    if !AtEnd(ts, 0) && Parse(ts).Ok? {
      var d := Declaration(ts, 0).value;
      assert |Parse(ts).value| >= |[d.value]|;
    }
  }

  // ---- Examples -------------------------------------------------------------

  function Word(kind: TokenType, lexeme: string): Token
  {
    Token(kind, lexeme, None, 1)
  }

  function NumberToken(n: Int32, lexeme: string): Token
  {
    Token(TokenType.Number, lexeme, Some(n), 1)
  }

  const End := Token(EOF, "", None, 1)

  /** `a - b - c` groups as `(a - b) - c`. */
  lemma SubtractionGroupsLeft()
    ensures var ts := [Word(Identifier, "a"), Word(Minus, "-"), Word(Identifier, "b"),
                       Word(Minus, "-"), Word(Identifier, "c"), End];
            WellFormed(ts) &&
            Expression(ts, 0) ==
              Ok(Parsed(Binary(Binary(Variable("a"), "-", Variable("b")), "-", Variable("c")), 5))
  {
    var ts := [Word(Identifier, "a"), Word(Minus, "-"), Word(Identifier, "b"),
               Word(Minus, "-"), Word(Identifier, "c"), End];
    var a, b, c := Variable("a"), Variable("b"), Variable("c");
    var ab := Binary(a, "-", b);
    var abc := Binary(ab, "-", c);

    assert Primary(ts, 0) == Ok(Parsed(a, 1));
    assert LevelRest(ts, 1, 1, a) == Ok(Parsed(a, 1));
    assert BinaryLevel(ts, 0, 1) == Ok(Parsed(a, 1));
    assert Primary(ts, 2) == Ok(Parsed(b, 3));
    assert LevelRest(ts, 3, 1, b) == Ok(Parsed(b, 3));
    assert BinaryLevel(ts, 2, 1) == Ok(Parsed(b, 3));
    assert Primary(ts, 4) == Ok(Parsed(c, 5));
    assert LevelRest(ts, 5, 1, c) == Ok(Parsed(c, 5));
    assert BinaryLevel(ts, 4, 1) == Ok(Parsed(c, 5));
    assert LevelRest(ts, 5, 2, abc) == Ok(Parsed(abc, 5));
    assert LevelRest(ts, 3, 2, ab) == Ok(Parsed(abc, 5));
    assert LevelRest(ts, 1, 2, a) == Ok(Parsed(abc, 5));
    assert BinaryLevel(ts, 0, 2) == Ok(Parsed(abc, 5));
    assert BinaryLevel(ts, 0, 3) == Ok(Parsed(abc, 5));
    assert BinaryLevel(ts, 0, 4) == Ok(Parsed(abc, 5));
  }

  /** `a + b * c` groups as `a + (b * c)`, whatever the three names. */
  lemma FactorBindsTighterThanTerm(a: string, b: string, c: string)
    ensures var ts := [Word(Identifier, a), Word(Plus, "+"), Word(Identifier, b),
                       Word(Star, "*"), Word(Identifier, c), End];
            WellFormed(ts) &&
            Expression(ts, 0) ==
              Ok(Parsed(Binary(Variable(a), "+", Binary(Variable(b), "*", Variable(c))), 5))
  {
    var ts := [Word(Identifier, a), Word(Plus, "+"), Word(Identifier, b),
               Word(Star, "*"), Word(Identifier, c), End];
    var product := Binary(Variable(b), "*", Variable(c));
    var sum := Binary(Variable(a), "+", product);

    assert Primary(ts, 0) == Ok(Parsed(Variable(a), 1));
    assert LevelRest(ts, 1, 1, Variable(a)) == Ok(Parsed(Variable(a), 1));
    assert BinaryLevel(ts, 0, 1) == Ok(Parsed(Variable(a), 1));
    assert Primary(ts, 2) == Ok(Parsed(Variable(b), 3));
    assert Primary(ts, 4) == Ok(Parsed(Variable(c), 5));
    assert LevelRest(ts, 5, 1, product) == Ok(Parsed(product, 5));
    assert LevelRest(ts, 3, 1, Variable(b)) == Ok(Parsed(product, 5));
    assert BinaryLevel(ts, 2, 1) == Ok(Parsed(product, 5));
    assert LevelRest(ts, 5, 2, sum) == Ok(Parsed(sum, 5));
    assert LevelRest(ts, 1, 2, Variable(a)) == Ok(Parsed(sum, 5));
    assert BinaryLevel(ts, 0, 2) == Ok(Parsed(sum, 5));
    assert BinaryLevel(ts, 0, 3) == Ok(Parsed(sum, 5));
    assert BinaryLevel(ts, 0, 4) == Ok(Parsed(sum, 5));
  }

  /** A primary followed by a token that is no binary operator is every
      level's whole result. */
  lemma {:induction false} PrimaryAlone(ts: seq<Token>, i: nat, level: nat)
    requires WellFormed(ts) && i < |ts| && 1 <= level <= 4
    requires Primary(ts, i).Ok?
    requires var j := Primary(ts, i).value.next; AtEnd(ts, j) || ts[j].kind !in BinaryKinds
    ensures BinaryLevel(ts, i, level) == Primary(ts, i)
    decreases level
  {
    if level > 1 {
      PrimaryAlone(ts, i, level - 1);
    }
  }

  /** `a = b = 1` groups as `a = (b = 1)`. */
  lemma AssignmentGroupsRight()
    ensures var ts := [Word(Identifier, "a"), Word(Equal, "="), Word(Identifier, "b"),
                       Word(Equal, "="), NumberToken(1, "1"), End];
            WellFormed(ts) &&
            Expression(ts, 0) == Ok(Parsed(Assign("a", Assign("b", Literal(1))), 5))
  {
    var ts := [Word(Identifier, "a"), Word(Equal, "="), Word(Identifier, "b"),
               Word(Equal, "="), NumberToken(1, "1"), End];
    assert Primary(ts, 4) == Ok(Parsed(Literal(1), 5));
    PrimaryAlone(ts, 4, 4);
    assert Primary(ts, 2) == Ok(Parsed(Variable("b"), 3));
    PrimaryAlone(ts, 2, 4);
    assert Primary(ts, 0) == Ok(Parsed(Variable("a"), 1));
    PrimaryAlone(ts, 0, 4);
    assert Assignment(ts, 4) == Ok(Parsed(Literal(1), 5));
    assert Assignment(ts, 2) == Ok(Parsed(Assign("b", Literal(1)), 5));
  }

  /** `1 = a;` is rejected with "Invalid assignment target." at the `=`,
      whatever the name on the right. */
  lemma InvalidTargetExample(name: string)
    ensures var ts := [NumberToken(1, "1"), Word(Equal, "="), Word(Identifier, name), Word(Semicolon, ";"), End];
            WellFormed(ts) &&
            Declaration(ts, 0) == Err(ParseError(1, "=", InvalidAssignmentTarget))
  {
    var ts := [NumberToken(1, "1"), Word(Equal, "="), Word(Identifier, name), Word(Semicolon, ";"), End];
    assert Primary(ts, 2) == Ok(Parsed(Variable(name), 3));
    PrimaryAlone(ts, 2, 4);
    assert Primary(ts, 0) == Ok(Parsed(Literal(1), 1));
    PrimaryAlone(ts, 0, 4);
    assert Assignment(ts, 2) == Ok(Parsed(Variable(name), 3));
    AssignmentTarget(ts, 0);
    assert Expression(ts, 0) == Err(ParseError(1, "=", InvalidAssignmentTarget));
    ExpressionStatementFails(ts, 0);
  }
}
