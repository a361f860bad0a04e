/** Expression and statement trees. The original's node classes and their
    `Accept` double dispatch become two datatypes; every consumer dispatches
    with an exhaustive `match`. */
module Ast {
  import opened Results
  import opened Values

  datatype Expr =
    | Literal(number: Int32)
    | Variable(name: string)
    | Binary(left: Expr, op: string, right: Expr)
    | Assign(name: string, value: Expr)

  datatype Stmt =
    | Print(expression: Expr)
    | ExprStmt(expression: Expr)
    | Var(name: string, initializer: Expr)
    | Block(statements: seq<Stmt>)
    | If(condition: Expr, thenBranch: Stmt, elseBranch: Option<Stmt>)
    | While(condition: Expr, body: Stmt)

  /** Every operator symbol in `e` is in `ops`. */
  predicate OpsWithin(e: Expr, ops: set<string>)
  {
    match e
    case Literal(_) => true
    case Variable(_) => true
    case Binary(left, op, right) => op in ops && OpsWithin(left, ops) && OpsWithin(right, ops)
    case Assign(_, value) => OpsWithin(value, ops)
  }

  /** The statements program text can produce: no `If` anywhere, no `let`
      directly as a loop body, and every operator symbol in `ops`. */
  predicate Parsable(s: Stmt, ops: set<string>)
  {
    match s
    case Print(e) => OpsWithin(e, ops)
    case ExprStmt(e) => OpsWithin(e, ops)
    case Var(_, e) => OpsWithin(e, ops)
    case Block(ss) => forall k | 0 <= k < |ss| :: Parsable(ss[k], ops)
    case If(_, _, _) => false
    case While(c, body) => OpsWithin(c, ops) && !body.Var? && Parsable(body, ops)
  }
}
