/** What the evaluator promises, proved about its specification. */
module SemanticsProperties {
  import opened Results
  import opened Values
  import opened Ast
  import opened ScopeChain
  import ScopeProperties
  import opened Semantics

  // ---- Operators ------------------------------------------------------------

  /** The six comparisons always succeed and yield exactly 1 when the
      relation holds and 0 when it does not. */
  lemma ComparisonsYieldZeroOrOne(op: string, a: Int32, b: Int32)
    requires op in {"==", "!=", "<", "<=", ">", ">="}
    ensures ApplyOp(op, a, b).Ok?
    ensures ApplyOp(op, a, b).value == 0 || ApplyOp(op, a, b).value == 1
    ensures ApplyOp(op, a, b).value == 1 <==>
              || (op == "==" && a == b) || (op == "!=" && a != b)
              || (op == "<" && a < b) || (op == "<=" && a <= b)
              || (op == ">" && a > b) || (op == ">=" && a >= b)
  {
  }

  /** `+`, `-` and `*` never fail; they yield the exact result reduced to
      32 bits, which is the exact result whenever that fits. */
  lemma ArithmeticWraps(op: string, a: Int32, b: Int32)
    requires op in {"+", "-", "*"}
    ensures var exact := if op == "+" then a + b else if op == "-" then a - b else a * b;
            && ApplyOp(op, a, b).Ok?
            && (ApplyOp(op, a, b).value - exact) % TwoTo32 == 0
            && (MinInt32 <= exact <= MaxInt32 ==> ApplyOp(op, a, b).value == exact)
  {
  }

  /** `/` fails on a zero divisor and on the one quotient that does not fit
      in 32 bits; otherwise it truncates toward zero: the remainder is
      smaller than the divisor and has the sign of the dividend. */
  lemma DivisionTruncates(a: Int32, b: Int32)
    ensures b == 0 <==> ApplyOp("/", a, b) == Err(DivideByZero)
    ensures (b != 0 && a == MinInt32 && b == -1) <==> ApplyOp("/", a, b) == Err(ArithmeticOverflow)
    ensures ApplyOp("/", a, b).Ok? ==>
              var q := ApplyOp("/", a, b).value;
              && Abs(a - q * b) < Abs(b)
              && (a - q * b == 0 || (a - q * b < 0) == (a < 0))
  {
    if b != 0 {
    }
  }

  /** Exactly the ten operator symbols are known; any other fails with
      "Unknown operator". */
  lemma UnknownOperatorIff(op: string, a: Int32, b: Int32)
    ensures ApplyOp(op, a, b) == Err(UnknownOperator(op)) <==> op !in KnownOperators
    ensures op in KnownOperators ==> !(ApplyOp(op, a, b).Err? && ApplyOp(op, a, b).error.UnknownOperator?)
  {
  }

  // ---- Expressions ----------------------------------------------------------

  /** An assignment stores the value in the innermost binding and yields
      that same value; an undefined name fails and changes nothing more. */
  lemma AssignYieldsValue(name: string, e: Expr, scopes: seq<Scope>)
    requires Evaluate(e, scopes).outcome.Ok?
    ensures var v := Evaluate(e, scopes);
            var r := Evaluate(Assign(name, e), scopes);
            && (Bound(v.scopes, name) ==>
                  r.outcome == Ok(v.outcome.value) && Get(r.scopes, name) == Ok(v.outcome.value))
            && (!Bound(v.scopes, name) ==>
                  r.outcome == Err(UndefinedVariable(name)) && r.scopes == v.scopes)
  {
    var v := Evaluate(e, scopes);
    var value := v.outcome.value;
    var stored := ScopeChain.Assign(v.scopes, name, value);
    var r := Evaluate(Assign(name, e), scopes);
    assert r == if stored.Err? then Eval(Err(stored.error), v.scopes) else Eval(Ok(value), stored.value);
    ScopeProperties.AssignSpec(v.scopes, name, value);
    if stored.Ok? {
      var k: nat :| k < |v.scopes| && name in v.scopes[k];
      var n := ScopeProperties.NearestBelow(v.scopes, name, k);
      ScopeProperties.AssignIsNearest(v.scopes, name, value, n);
    }
  }

  /** The left operand is evaluated first: `(a = 1) - (a = 2)` yields
      `1 - 2` and leaves `a` at 2. */
  lemma LeftOperandFirst()
    ensures Evaluate(Binary(Assign("a", Literal(1)), "-", Assign("a", Literal(2))), [map["a" := 0]])
            == Eval(Ok(-1), [map["a" := 2]])
  {
    var s0: seq<Scope> := [map["a" := 0]];
    var s1: seq<Scope> := [map["a" := 1]];
    var s2: seq<Scope> := [map["a" := 2]];
    ScopeProperties.AssignIsNearest(s0, "a", 1, 0);
    var r1 := ScopeChain.Assign(s0, "a", 1).value;
    assert r1 == [r1[0]] && r1[0] == map["a" := 1];
    assert Evaluate(Assign("a", Literal(1)), s0) == Eval(Ok(1), s1);
    ScopeProperties.AssignIsNearest(s1, "a", 2, 0);
    var r2 := ScopeChain.Assign(s1, "a", 2).value;
    assert r2 == [r2[0]] && r2[0] == map["a" := 2];
    assert Evaluate(Assign("a", Literal(2)), s1) == Eval(Ok(2), s2);
  }

  /** Programs whose operator symbols are all known never fail with
      "Unknown operator". */
  lemma {:induction false} KnownOperatorsOnly(e: Expr, scopes: seq<Scope>)
    requires OpsWithin(e, KnownOperators)
    ensures !(Evaluate(e, scopes).outcome.Err? && Evaluate(e, scopes).outcome.error.UnknownOperator?)
  {
    match e
    case Literal(_) =>
    case Variable(_) =>
    case Assign(name, value) =>
      KnownOperatorsOnly(value, scopes);
    case Binary(left, op, right) =>
      KnownOperatorsOnly(left, scopes);
      var l := Evaluate(left, scopes);
      if l.outcome.Ok? {
        KnownOperatorsOnly(right, l.scopes);
        var r := Evaluate(right, l.scopes);
        if r.outcome.Ok? {
          UnknownOperatorIff(op, l.outcome.value, r.outcome.value);
        }
      }
  }

  // ---- Statements -----------------------------------------------------------

  /** Fuel only cuts runs off: a run that did not run out of fuel gives the
      same completion with any larger budget. */
  lemma {:induction false} ExecFuelMonotone(s: Stmt, st: State, fuel: nat, more: nat)
    requires |st.scopes| > 0 && fuel <= more
    requires !Exec(s, st, fuel).outcome.OutOfFuel?
    ensures Exec(s, st, more) == Exec(s, st, fuel)
    decreases s, 1, 0
  {
    match s
    case ExprStmt(_) =>
    case Print(_) =>
    case Var(_, _) =>
    case Block(ss) =>
      ExecSeqFuelMonotone(ss, 0, State([map[]] + st.scopes, st.output), fuel, more);
    case If(condition, thenBranch, elseBranch) =>
      var v := Evaluate(condition, st.scopes);
      var next := State(v.scopes, st.output);
      if v.outcome.Ok? {
        if IsTruthy(v.outcome.value) {
          ExecFuelMonotone(thenBranch, next, fuel, more);
        } else if elseBranch.Some? {
          ExecFuelMonotone(elseBranch.value, next, fuel, more);
        }
      }
    case While(condition, body) =>
      LoopFuelMonotone(condition, body, st, fuel, more, fuel, more);
  }

  lemma {:induction false} LoopFuelMonotone(condition: Expr, body: Stmt, st: State, fuel: nat, more: nat,
                                            remaining: nat, moreRemaining: nat)
    requires |st.scopes| > 0 && fuel <= more && remaining <= moreRemaining
    requires !Loop(condition, body, st, fuel, remaining).outcome.OutOfFuel?
    ensures Loop(condition, body, st, more, moreRemaining) == Loop(condition, body, st, fuel, remaining)
    decreases While(condition, body), 0, remaining
  {
    var v := Evaluate(condition, st.scopes);
    var next := State(v.scopes, st.output);
    if v.outcome.Ok? && IsTruthy(v.outcome.value) && remaining > 0 {
      var c := Exec(body, next, fuel);
      ExecFuelMonotone(body, next, fuel, more);
      if c.outcome.Normal? {
        LoopFuelMonotone(condition, body, c.state, fuel, more, remaining - 1, moreRemaining - 1);
      }
    }
  }

  lemma {:induction false} ExecSeqFuelMonotone(ss: seq<Stmt>, k: nat, st: State, fuel: nat, more: nat)
    requires k <= |ss| && |st.scopes| > 0 && fuel <= more
    requires !ExecSeq(ss, k, st, fuel).outcome.OutOfFuel?
    ensures ExecSeq(ss, k, st, more) == ExecSeq(ss, k, st, fuel)
    decreases Block(ss), 0, |ss| - k
  {
    if k < |ss| {
      var c := Exec(ss[k], st, fuel);
      ExecFuelMonotone(ss[k], st, fuel, more);
      if c.outcome.Normal? {
        ExecSeqFuelMonotone(ss, k + 1, c.state, fuel, more);
      }
    }
  }

  // ---- What running code can change -----------------------------------------

  /** Evaluating an expression changes values only: every scope binds the
      same names afterwards, since assignment never creates a binding. */
  lemma {:induction false} EvaluateKeepsShape(e: Expr, scopes: seq<Scope>)
    ensures SameShape(Evaluate(e, scopes).scopes, scopes)
  {
    match e
    case Literal(_) =>
    case Variable(_) =>
    case Assign(name, value) =>
      EvaluateKeepsShape(value, scopes);
      var v := Evaluate(value, scopes);
      if v.outcome.Ok? {
        ScopeProperties.AssignNeverCreates(v.scopes, name, v.outcome.value);
      }
    case Binary(left, _, right) =>
      EvaluateKeepsShape(left, scopes);
      var l := Evaluate(left, scopes);
      if l.outcome.Ok? {
        EvaluateKeepsShape(right, l.scopes);
      }
  }

  lemma ExtendsTransitive(a: State, b: State, c: State)
    requires Extends(b, a) && Extends(c, b)
    ensures Extends(c, a)
  {
  }

  /** Statements bind new names in the current scope only, change values,
      and append printed lines to the output. */
  lemma {:induction false} ExecExtends(s: Stmt, st: State, fuel: nat)
    requires |st.scopes| > 0
    ensures Extends(Exec(s, st, fuel).state, st)
    decreases s, 1, 0
  {
    match s
    case ExprStmt(e) =>
      EvaluateKeepsShape(e, st.scopes);
    case Print(e) =>
      EvaluateKeepsShape(e, st.scopes);
    case Var(_, e) =>
      EvaluateKeepsShape(e, st.scopes);
    case Block(ss) =>
      BlockExtends(ss, st, fuel);
    case If(condition, thenBranch, elseBranch) =>
      EvaluateKeepsShape(condition, st.scopes);
      var v := Evaluate(condition, st.scopes);
      var next := State(v.scopes, st.output);
      if v.outcome.Ok? {
        if IsTruthy(v.outcome.value) {
          ExecExtends(thenBranch, next, fuel);
          ExtendsTransitive(st, next, Exec(thenBranch, next, fuel).state);
        } else if elseBranch.Some? {
          ExecExtends(elseBranch.value, next, fuel);
          ExtendsTransitive(st, next, Exec(elseBranch.value, next, fuel).state);
        }
      }
    case While(condition, body) =>
      LoopExtends(condition, body, st, fuel, fuel);
  }

  /** A block's own scope is dropped when it ends, so the enclosing scopes
      bind the same names as before, however the block ends. */
  lemma {:induction false} BlockExtends(ss: seq<Stmt>, st: State, fuel: nat)
    requires |st.scopes| > 0
    ensures SameShape(Exec(Block(ss), st, fuel).state.scopes, st.scopes)
    ensures Extends(Exec(Block(ss), st, fuel).state, st)
    decreases Block(ss), 0, |ss| + 1
  {
    var start := State([map[]] + st.scopes, st.output);
    ExecSeqExtends(ss, 0, start, fuel);
    var inner := ExecSeq(ss, 0, start, fuel);
    assert forall k | 0 <= k < |st.scopes| :: inner.state.scopes[1..][k] == inner.state.scopes[k + 1];
    assert forall k | 0 <= k < |st.scopes| :: start.scopes[k + 1] == st.scopes[k];
  }

  lemma {:induction false} LoopExtends(condition: Expr, body: Stmt, st: State, fuel: nat, remaining: nat)
    requires |st.scopes| > 0
    ensures Extends(Loop(condition, body, st, fuel, remaining).state, st)
    decreases While(condition, body), 0, remaining
  {
    EvaluateKeepsShape(condition, st.scopes);
    var v := Evaluate(condition, st.scopes);
    var next := State(v.scopes, st.output);
    if v.outcome.Ok? && IsTruthy(v.outcome.value) && remaining > 0 {
      ExecExtends(body, next, fuel);
      var c := Exec(body, next, fuel);
      ExtendsTransitive(st, next, c.state);
      if c.outcome.Normal? {
        LoopExtends(condition, body, c.state, fuel, remaining - 1);
        ExtendsTransitive(st, c.state, Loop(condition, body, c.state, fuel, remaining - 1).state);
      }
    }
  }

  lemma {:induction false} ExecSeqExtends(ss: seq<Stmt>, k: nat, st: State, fuel: nat)
    requires k <= |ss| && |st.scopes| > 0
    ensures Extends(ExecSeq(ss, k, st, fuel).state, st)
    decreases Block(ss), 0, |ss| - k
  {
    if k < |ss| {
      ExecExtends(ss[k], st, fuel);
      var c := Exec(ss[k], st, fuel);
      if c.outcome.Normal? {
        ExecSeqExtends(ss, k + 1, c.state, fuel);
        ExtendsTransitive(st, c.state, ExecSeq(ss, k + 1, c.state, fuel).state);
      }
    }
  }

  /** `if` evaluates its condition once and runs the then branch exactly
      when it is nonzero, the else branch otherwise; without an else branch
      a zero condition does nothing more. */
  lemma IfRunsOneBranch(condition: Expr, thenBranch: Stmt, elseBranch: Option<Stmt>, st: State, fuel: nat)
    requires |st.scopes| > 0 && Evaluate(condition, st.scopes).outcome.Ok?
    ensures var v := Evaluate(condition, st.scopes);
            var after := State(v.scopes, st.output);
            var c := Exec(If(condition, thenBranch, elseBranch), st, fuel);
            && (v.outcome.value != 0 ==> c == Exec(thenBranch, after, fuel))
            && (v.outcome.value == 0 && elseBranch.Some? ==> c == Exec(elseBranch.value, after, fuel))
            && (v.outcome.value == 0 && elseBranch.None? ==> c == Completion(Normal, after))
  {
  }

  /** `while` evaluates its condition before every iteration: a zero
      condition ends the loop with the body not run. */
  lemma WhileStopsOnZero(condition: Expr, body: Stmt, st: State, fuel: nat)
    requires |st.scopes| > 0 && Evaluate(condition, st.scopes).outcome == Ok(0)
    ensures Exec(While(condition, body), st, fuel)
            == Completion(Normal, State(Evaluate(condition, st.scopes).scopes, st.output))
  {
    WhileIsLoop(condition, body, st, fuel);
    LoopExits(condition, body, st, fuel, fuel);
  }

  /** A nonzero condition runs the body and, if the body completes
      normally, the whole loop again from the state the body left. */
  lemma WhileRepeats(condition: Expr, body: Stmt, st: State, after: State, fuel: nat, value: Int32)
    requires |st.scopes| > 0 && fuel > 0 && value != 0
    requires Evaluate(condition, st.scopes).outcome == Ok(value)
    requires Exec(body, State(Evaluate(condition, st.scopes).scopes, st.output), fuel) == Completion(Normal, after)
    requires !Exec(While(condition, body), st, fuel).outcome.OutOfFuel?
    ensures Exec(While(condition, body), st, fuel) == Exec(While(condition, body), after, fuel)
  {
    WhileIsLoop(condition, body, st, fuel);
    LoopIterates(condition, body, st, after, fuel, fuel, value);
    WhileIsLoop(condition, body, after, fuel);
    LoopFuelMonotone(condition, body, after, fuel, fuel, fuel - 1, fuel);
  }

  /** A `while` statement runs as a loop allowed `fuel` iterations. */
  lemma WhileIsLoop(condition: Expr, body: Stmt, st: State, fuel: nat)
    requires |st.scopes| > 0
    ensures Exec(While(condition, body), st, fuel) == Loop(condition, body, st, fuel, fuel)
  {
  }

  /** One iteration of a loop whose condition holds and whose body
      completes normally. */
  lemma LoopIterates(condition: Expr, body: Stmt, st: State, after: State, fuel: nat, remaining: nat, value: Int32)
    requires |st.scopes| > 0 && remaining > 0 && value != 0
    requires Evaluate(condition, st.scopes).outcome == Ok(value)
    requires Exec(body, State(Evaluate(condition, st.scopes).scopes, st.output), fuel) == Completion(Normal, after)
    ensures Loop(condition, body, st, fuel, remaining) == Loop(condition, body, after, fuel, remaining - 1)
  {
  }

  /** A loop whose condition is false completes normally at once. */
  lemma LoopExits(condition: Expr, body: Stmt, st: State, fuel: nat, remaining: nat)
    requires |st.scopes| > 0 && Evaluate(condition, st.scopes).outcome == Ok(0)
    ensures Loop(condition, body, st, fuel, remaining) == Completion(Normal, State(Evaluate(condition, st.scopes).scopes, st.output))
  {
  }

  /** Running a list in two parts: the statements before `k` first, then,
      if they all completed normally, the rest. */
  lemma {:induction false} ExecSeqSplit(ss: seq<Stmt>, j: nat, k: nat, st: State, fuel: nat)
    requires j <= k <= |ss| && |st.scopes| > 0
    ensures var p := ExecSeq(ss[..k], j, st, fuel);
            && (p.outcome.Normal? ==> ExecSeq(ss, j, st, fuel) == ExecSeq(ss, k, p.state, fuel))
            && (!p.outcome.Normal? ==> ExecSeq(ss, j, st, fuel) == p)
    decreases k - j
  {
    if j < k {
      assert ss[..k][j] == ss[j];
      var c := Exec(ss[j], st, fuel);
      if c.outcome.Normal? {
        ExecSeqSplit(ss, j + 1, k, c.state, fuel);
      }
    }
  }

  /** Top-level statements run in order and the first runtime error stops
      the program: nothing after the failing statement runs, the output
      printed before it is kept, and one error line follows it. */
  lemma InterpretStopsAtFirstError(program: seq<Stmt>, k: nat, st: State, fuel: nat)
    requires k < |program| && |st.scopes| > 0
    requires ExecSeq(program[..k], 0, st, fuel).outcome.Normal?
    requires Exec(program[k], ExecSeq(program[..k], 0, st, fuel).state, fuel).outcome.Failed?
    ensures var c := Exec(program[k], ExecSeq(program[..k], 0, st, fuel).state, fuel);
            Interpret(program, st, fuel)
              == Completion(c.outcome, State(c.state.scopes, c.state.output + [RuntimeErrorLine(c.outcome.error)]))
  {
    ExecSeqSplit(program, 0, k, st, fuel);
  }

  /** A program's output is the lines it had, then printed values, then
      one error line exactly when it failed. */
  lemma InterpretOutput(program: seq<Stmt>, st: State, fuel: nat)
    requires |st.scopes| > 0
    ensures var c := Interpret(program, st, fuel);
            var out := c.state.output;
            && st.output <= out
            && (c.outcome.Failed? ==> |out| > |st.output| && out[|out| - 1] == RuntimeErrorLine(c.outcome.error))
            && (forall k | |st.output| <= k < |out| && !(c.outcome.Failed? && k == |out| - 1) :: out[k].Printed?)
  {
    ExecSeqExtends(program, 0, st, fuel);
  }

  /** Statements whose operator symbols are all known never fail with
      "Unknown operator". */
  lemma {:induction false} ExecKnownOperatorsOnly(s: Stmt, st: State, fuel: nat)
    requires |st.scopes| > 0 && Parsable(s, KnownOperators)
    ensures NoUnknownOperator(Exec(s, st, fuel))
    decreases s, 1, 0
  {
    match s
    case ExprStmt(e) =>
      KnownOperatorsOnly(e, st.scopes);
    case Print(e) =>
      KnownOperatorsOnly(e, st.scopes);
    case Var(_, e) =>
      KnownOperatorsOnly(e, st.scopes);
    case Block(ss) =>
      ExecSeqKnownOperatorsOnly(ss, 0, State([map[]] + st.scopes, st.output), fuel);
    case While(condition, body) =>
      LoopKnownOperatorsOnly(condition, body, st, fuel, fuel);
  }

  predicate NoUnknownOperator(c: Completion)
  {
    !(c.outcome.Failed? && c.outcome.error.UnknownOperator?)
  }

  lemma {:induction false} LoopKnownOperatorsOnly(condition: Expr, body: Stmt, st: State, fuel: nat, remaining: nat)
    requires |st.scopes| > 0 && OpsWithin(condition, KnownOperators) && Parsable(body, KnownOperators)
    ensures NoUnknownOperator(Loop(condition, body, st, fuel, remaining))
    decreases While(condition, body), 0, remaining
  {
    KnownOperatorsOnly(condition, st.scopes);
    var v := Evaluate(condition, st.scopes);
    var next := State(v.scopes, st.output);
    if v.outcome.Ok? && IsTruthy(v.outcome.value) && remaining > 0 {
      var c := Exec(body, next, fuel);
      ExecKnownOperatorsOnly(body, next, fuel);
      if c.outcome.Normal? {
        LoopKnownOperatorsOnly(condition, body, c.state, fuel, remaining - 1);
      }
    }
  }

  lemma {:induction false} ExecSeqKnownOperatorsOnly(ss: seq<Stmt>, k: nat, st: State, fuel: nat)
    requires k <= |ss| && |st.scopes| > 0
    requires forall m | 0 <= m < |ss| :: Parsable(ss[m], KnownOperators)
    ensures NoUnknownOperator(ExecSeq(ss, k, st, fuel))
    decreases Block(ss), 0, |ss| - k
  {
    if k < |ss| {
      var c := Exec(ss[k], st, fuel);
      ExecKnownOperatorsOnly(ss[k], st, fuel);
      if c.outcome.Normal? {
        ExecSeqKnownOperatorsOnly(ss, k + 1, c.state, fuel);
      }
    }
  }
}
