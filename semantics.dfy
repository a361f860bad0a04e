/** The tree-walking evaluator as pure functions over a chain of scopes and
    an output stream. Exceptions become results: an expression yields a
    value or an error, a statement completes normally, fails with an error,
    or runs out of fuel. */
module Semantics {
  import opened Results
  import opened Values
  import opened Ast
  import opened ScopeChain

  // ---- Operators ------------------------------------------------------------

  const KnownOperators: set<string> := {"+", "-", "*", "/", "==", "!=", "<", "<=", ">", ">="}

  /** The operator switch of binary evaluation, on 32-bit integers. */
  function ApplyOp(op: string, left: Int32, right: Int32): (r: Result<Int32, RuntimeError>)
    ensures r.Err? <==> op !in KnownOperators || (op == "/" && (right == 0 || (left == MinInt32 && right == -1)))
  {
    match op
    case "+" => Ok(Wrap(left + right))
    case "-" => Ok(Wrap(left - right))
    case "*" => Ok(Wrap(left * right))
    case "/" =>
      if right == 0 then Err(DivideByZero)
      else if left == MinInt32 && right == -1 then Err(ArithmeticOverflow)
      else
        TruncDivInRange(left, right);
        Ok(TruncDiv(left, right))
    case "==" => Ok(if left == right then 1 else 0)
    case "!=" => Ok(if left != right then 1 else 0)
    case "<" => Ok(if left < right then 1 else 0)
    case "<=" => Ok(if left <= right then 1 else 0)
    case ">" => Ok(if left > right then 1 else 0)
    case ">=" => Ok(if left >= right then 1 else 0)
    case _ => Err(UnknownOperator(op))
  }

  /** Only nonzero integers count as true. */
  predicate IsTruthy(value: Int32)
  {
    value != 0
  }

  // ---- Expressions ----------------------------------------------------------

  /** Two scope chains of the same length binding the same names scope by
      scope: what evaluating an expression can change is values only. */
  predicate SameShape(after: seq<Scope>, before: seq<Scope>)
  {
    |after| == |before| && forall k | 0 <= k < |before| :: after[k].Keys == before[k].Keys
  }

  /** An expression's value or error, with the scopes as its assignments
      left them. */
  datatype Eval = Eval(outcome: Result<Int32, RuntimeError>, scopes: seq<Scope>)

  function Evaluate(e: Expr, scopes: seq<Scope>): (r: Eval)
    ensures |r.scopes| == |scopes|
  {
    match e
    case Literal(n) => Eval(Ok(n), scopes)
    case Variable(name) => Eval(Get(scopes, name), scopes)
    case Assign(name, value) =>
      var v := Evaluate(value, scopes);
      if v.outcome.Err? then v
      else
        var rebound := ScopeChain.Assign(v.scopes, name, v.outcome.value);
        if rebound.Err? then Eval(Err(rebound.error), v.scopes)
        else Eval(Ok(v.outcome.value), rebound.value)
    case Binary(left, op, right) =>
      var l := Evaluate(left, scopes);
      if l.outcome.Err? then l
      else
        var r := Evaluate(right, l.scopes);
        if r.outcome.Err? then r
        else Eval(ApplyOp(op, l.outcome.value, r.outcome.value), r.scopes)
  }

  // ---- Statements -----------------------------------------------------------

  /** A line of console output: a printed value, or the report of the error
      that stopped the program. */
  datatype OutputLine = Printed(value: Int32) | RuntimeErrorLine(error: RuntimeError)

  datatype State = State(scopes: seq<Scope>, output: seq<OutputLine>)

  datatype Outcome = Normal | Failed(error: RuntimeError) | OutOfFuel

  datatype Completion = Completion(outcome: Outcome, state: State)

  /** What running statements can do to the state: bind new names in the
      current scope only, change values, and print. */
  predicate Extends(after: State, before: State)
  {
    && |after.scopes| == |before.scopes| > 0
    && before.scopes[0].Keys <= after.scopes[0].Keys
    && (forall k | 1 <= k < |before.scopes| :: after.scopes[k].Keys == before.scopes[k].Keys)
    && before.output <= after.output
    && (forall k | |before.output| <= k < |after.output| :: after.output[k].Printed?)
  }

  /** Runs one statement. Each `while` may iterate at most `fuel` times;
      a loop that wants more stops the program with `OutOfFuel`. */
  function Exec(s: Stmt, st: State, fuel: nat): (c: Completion)
    requires |st.scopes| > 0
    ensures |c.state.scopes| == |st.scopes|
    decreases s, 1, 0
  {
    match s
    case ExprStmt(e) =>
      var v := Evaluate(e, st.scopes);
      if v.outcome.Err? then Completion(Failed(v.outcome.error), State(v.scopes, st.output))
      else Completion(Normal, State(v.scopes, st.output))
    case Print(e) =>
      var v := Evaluate(e, st.scopes);
      if v.outcome.Err? then Completion(Failed(v.outcome.error), State(v.scopes, st.output))
      else Completion(Normal, State(v.scopes, st.output + [Printed(v.outcome.value)]))
    case Var(name, init) =>
      var v := Evaluate(init, st.scopes);
      if v.outcome.Err? then Completion(Failed(v.outcome.error), State(v.scopes, st.output))
      else Completion(Normal, State(Define(v.scopes, name, v.outcome.value), st.output))
    case Block(ss) =>
      var inner := ExecSeq(ss, 0, State([map[]] + st.scopes, st.output), fuel);
      Completion(inner.outcome, State(inner.state.scopes[1..], inner.state.output))
    case If(condition, thenBranch, elseBranch) =>
      var v := Evaluate(condition, st.scopes);
      var next := State(v.scopes, st.output);
      if v.outcome.Err? then Completion(Failed(v.outcome.error), next)
      else if IsTruthy(v.outcome.value) then Exec(thenBranch, next, fuel)
      else if elseBranch.Some? then Exec(elseBranch.value, next, fuel)
      else Completion(Normal, next)
    case While(condition, body) =>
      Loop(condition, body, st, fuel, fuel)
  }

  /** The iterations of `while condition body` still allowed: `remaining`. */
  function Loop(condition: Expr, body: Stmt, st: State, fuel: nat, remaining: nat): (c: Completion)
    requires |st.scopes| > 0
    ensures |c.state.scopes| == |st.scopes|
    decreases While(condition, body), 0, remaining
  {
    var v := Evaluate(condition, st.scopes);
    var next := State(v.scopes, st.output);
    if v.outcome.Err? then Completion(Failed(v.outcome.error), next)
    else if !IsTruthy(v.outcome.value) then Completion(Normal, next)
    else if remaining == 0 then Completion(OutOfFuel, next)
    else
      var c := Exec(body, next, fuel);
      if !c.outcome.Normal? then c
      else Loop(condition, body, c.state, fuel, remaining - 1)
  }

  /** Runs `ss[k..]` in order, stopping at the first statement that does not
      complete normally. */
  function ExecSeq(ss: seq<Stmt>, k: nat, st: State, fuel: nat): (c: Completion)
    requires k <= |ss| && |st.scopes| > 0
    ensures |c.state.scopes| == |st.scopes|
    decreases Block(ss), 0, |ss| - k
  {
    if k == |ss| then Completion(Normal, st)
    else
      var c := Exec(ss[k], st, fuel);
      if !c.outcome.Normal? then c
      else ExecSeq(ss, k + 1, c.state, fuel)
  }

  /** Runs a program; a runtime error ends it with one error line after the
      output printed so far. */
  function Interpret(program: seq<Stmt>, st: State, fuel: nat): (c: Completion)
    requires |st.scopes| > 0
    ensures var run := ExecSeq(program, 0, st, fuel);
            && c.outcome == run.outcome && c.state.scopes == run.state.scopes
            && run.state.output <= c.state.output
            && |c.state.output| == |run.state.output| + (if c.outcome.Failed? then 1 else 0)
            && (c.outcome.Failed? ==> c.state.output[|c.state.output| - 1] == RuntimeErrorLine(c.outcome.error))
  {
    var c := ExecSeq(program, 0, st, fuel);
    if c.outcome.Failed? then Completion(c.outcome, State(c.state.scopes, c.state.output + [RuntimeErrorLine(c.outcome.error)]))
    else c
  }

  /** A fresh interpreter: one empty global scope and no output. */
  const Initial: State := State([map[]], [])
}
