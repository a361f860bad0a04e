/** The interpreter as the original writes it: a visitor over the tree with
    a current-environment field that blocks swap and restore, and a console
    it prints to. A thrown runtime error becomes a `Failed` outcome that
    propagates to `Interpret`, which reports it. Every method is proved
    against `Semantics`. */
module Interpreting {
  import opened Results
  import opened Values
  import opened Ast
  import opened Semantics
  import opened Environments

  class Interpreter {
    var environment: Environment
    /** The lines written to the console. */
    var output: seq<OutputLine>

    ghost predicate Valid()
      reads this
    {
      environment.Valid()
    }

    /** The state the specification runs on. */
    ghost function Current(): State
      requires Valid()
      reads this, environment, environment.ancestors
    {
      State(environment.Scopes(), output)
    }

    constructor ()
      ensures Valid() && Current() == Initial
    {
      environment := new Environment(null);
      output := [];
    }

    /** Runs the program's statements in order; the first runtime error
        stops it and is reported as one more output line. */
    method Interpret(statements: seq<Stmt>, fuel: nat) returns (outcome: Outcome)
      requires Valid()
      modifies this, environment, environment.ancestors
      ensures Valid() && environment == old(environment)
      ensures Semantics.Interpret(statements, old(Current()), fuel) == Completion(outcome, Current())
    {
      ghost var start := Current();
      for k := 0 to |statements|
        invariant Valid() && environment == old(environment)
        invariant ExecSeq(statements, k, Current(), fuel) == ExecSeq(statements, 0, start, fuel)
      {
        outcome := Execute(statements[k], fuel);
        if outcome.Failed? {
          output := output + [RuntimeErrorLine(outcome.error)];
          return;
        }
        if outcome.OutOfFuel? {
          return;
        }
      }
      return Normal;
    }

    method Execute(s: Stmt, fuel: nat) returns (outcome: Outcome)
      requires Valid()
      modifies this, environment, environment.ancestors
      ensures Valid() && environment == old(environment)
      ensures Exec(s, old(Current()), fuel) == Completion(outcome, Current())
      decreases s, 3
    {
      match s
      case ExprStmt(_) =>
        outcome := VisitExprStmt(s);
      case Print(_) =>
        outcome := VisitPrintStmt(s);
      case Var(_, _) =>
        outcome := VisitVarStmt(s);
      case Block(_) =>
        outcome := VisitBlockStmt(s, fuel);
      case If(_, _, _) =>
        outcome := VisitIfStmt(s, fuel);
      case While(_, _) =>
        outcome := VisitWhileStmt(s, fuel);
    }

    // ---- Expressions ----

    method Evaluate(e: Expr) returns (r: Result<Int32, RuntimeError>)
      requires Valid()
      modifies environment, environment.ancestors
      ensures Valid()
      ensures Semantics.Evaluate(e, old(environment.Scopes())) == Eval(r, environment.Scopes())
      decreases e, 1
    {
      match e
      case Literal(_) =>
        r := VisitLiteralExpr(e);
      case Variable(_) =>
        r := VisitVariableExpr(e);
      case Assign(_, _) =>
        r := VisitAssignExpr(e);
      case Binary(_, _, _) =>
        r := VisitBinaryExpr(e);
    }

    method VisitLiteralExpr(e: Expr) returns (r: Result<Int32, RuntimeError>)
      requires e.Literal?
      ensures r == Ok(e.number)
    {
      return Ok(e.number);
    }

    method VisitVariableExpr(e: Expr) returns (r: Result<Int32, RuntimeError>)
      requires Valid() && e.Variable?
      ensures r == ScopeChain.Get(environment.Scopes(), e.name)
    {
      r := environment.Get(e.name);
    }

    method VisitAssignExpr(e: Expr) returns (r: Result<Int32, RuntimeError>)
      requires Valid() && e.Assign?
      modifies environment, environment.ancestors
      ensures Valid()
      ensures Semantics.Evaluate(e, old(environment.Scopes())) == Eval(r, environment.Scopes())
      decreases e, 0
    {
      var value := Evaluate(e.value);
      if value.Err? {
        return value;
      }
      var stored := environment.Assign(e.name, value.value);
      if stored.Err? {
        return Err(stored.error);
      }
      return value;
    }

    method VisitBinaryExpr(e: Expr) returns (r: Result<Int32, RuntimeError>)
      requires Valid() && e.Binary?
      modifies environment, environment.ancestors
      ensures Valid()
      ensures Semantics.Evaluate(e, old(environment.Scopes())) == Eval(r, environment.Scopes())
      decreases e, 0
    {
      var left := Evaluate(e.left);
      if left.Err? {
        return left;
      }
      var right := Evaluate(e.right);
      if right.Err? {
        return right;
      }
      r := ApplyOp(e.op, left.value, right.value);
    }

    // ---- Statements ----

    method VisitExprStmt(s: Stmt) returns (outcome: Outcome)
      requires Valid() && s.ExprStmt?
      modifies environment, environment.ancestors
      ensures Valid()
      ensures Exec(s, old(Current()), 0) == Completion(outcome, Current())
    {
      var value := Evaluate(s.expression);
      if value.Err? {
        return Failed(value.error);
      }
      return Normal;
    }

    method VisitPrintStmt(s: Stmt) returns (outcome: Outcome)
      requires Valid() && s.Print?
      modifies this, environment, environment.ancestors
      ensures Valid() && environment == old(environment)
      ensures Exec(s, old(Current()), 0) == Completion(outcome, Current())
    {
      var value := Evaluate(s.expression);
      if value.Err? {
        return Failed(value.error);
      }
      output := output + [Printed(value.value)];
      return Normal;
    }

    method VisitVarStmt(s: Stmt) returns (outcome: Outcome)
      requires Valid() && s.Var?
      modifies environment, environment.ancestors
      ensures Valid()
      ensures Exec(s, old(Current()), 0) == Completion(outcome, Current())
    {
      var value := Evaluate(s.initializer);
      if value.Err? {
        return Failed(value.error);
      }
      environment.Define(s.name, value.value);
      return Normal;
    }

    method VisitBlockStmt(s: Stmt, fuel: nat) returns (outcome: Outcome)
      requires Valid() && s.Block?
      modifies this, environment, environment.ancestors
      ensures Valid() && environment == old(environment)
      ensures Exec(s, old(Current()), fuel) == Completion(outcome, Current())
      decreases s, 2
    {
      var inner := new Environment(environment);
      outcome := ExecuteBlock(s.statements, inner, fuel);
    }

    method VisitIfStmt(s: Stmt, fuel: nat) returns (outcome: Outcome)
      requires Valid() && s.If?
      modifies this, environment, environment.ancestors
      ensures Valid() && environment == old(environment)
      ensures Exec(s, old(Current()), fuel) == Completion(outcome, Current())
      decreases s, 1
    {
      var condition := Evaluate(s.condition);
      if condition.Err? {
        return Failed(condition.error);
      }
      if IsTruthy(condition.value) {
        outcome := Execute(s.thenBranch, fuel);
      } else if s.elseBranch.Some? {
        outcome := Execute(s.elseBranch.value, fuel);
      } else {
        outcome := Normal;
      }
    }

    /** Re-evaluates the condition before every iteration; at most `fuel`
        iterations run. */
    method VisitWhileStmt(s: Stmt, fuel: nat) returns (outcome: Outcome)
      requires Valid() && s.While?
      modifies this, environment, environment.ancestors
      ensures Valid() && environment == old(environment)
      ensures Exec(s, old(Current()), fuel) == Completion(outcome, Current())
      decreases s, 1
    {
      var remaining := fuel;
      while true
        invariant Valid() && environment == old(environment)
        invariant Loop(s.condition, s.body, Current(), fuel, remaining) == Exec(s, old(Current()), fuel)
        decreases remaining
      {
        var condition := Evaluate(s.condition);
        if condition.Err? {
          return Failed(condition.error);
        }
        if !IsTruthy(condition.value) {
          return Normal;
        }
        if remaining == 0 {
          return OutOfFuel;
        }
        outcome := Execute(s.body, fuel);
        if !outcome.Normal? {
          return;
        }
        remaining := remaining - 1;
      }
    }

    /** Runs `statements` with `inner` as the current environment and
        restores the previous one afterwards, however the statements end. */
    method ExecuteBlock(statements: seq<Stmt>, inner: Environment, fuel: nat) returns (outcome: Outcome)
      requires Valid() && inner.Valid() && inner.enclosing == environment
      modifies this, inner, inner.ancestors
      ensures Valid() && environment == old(environment)
      ensures var c := ExecSeq(statements, 0, State(old(inner.Scopes()), old(output)), fuel);
              && outcome == c.outcome
              && Current() == State(c.state.scopes[1..], c.state.output)
      decreases Block(statements), 1
    {
      var previous := environment;
      environment := inner;
      outcome := ExecuteStatements(statements, fuel);
      inner.EnclosingScopes();
      environment := previous;
    }

    /** Runs `statements` in order in the current environment, stopping at
        the first one that does not complete normally. */
    method ExecuteStatements(statements: seq<Stmt>, fuel: nat) returns (outcome: Outcome)
      requires Valid()
      modifies this, environment, environment.ancestors
      ensures Valid() && environment == old(environment)
      ensures ExecSeq(statements, 0, old(Current()), fuel) == Completion(outcome, Current())
      decreases Block(statements), 0
    {
      ghost var start := Current();
      for k := 0 to |statements|
        invariant Valid() && environment == old(environment)
        invariant ExecSeq(statements, k, Current(), fuel) == ExecSeq(statements, 0, start, fuel)
      {
        outcome := Execute(statements[k], fuel);
        if !outcome.Normal? {
          return;
        }
      }
      return Normal;
    }
  }
}
