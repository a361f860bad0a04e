/** The statement trees of small programs, written out as the parser
    builds them from the source text quoted in each comment, run through
    the evaluator: precedence, truncating division, a runtime error that
    stops the program, assignment through and shadowing across a block, a
    counting loop and an undefined variable. Lexing and parsing that text
    is not part of these lemmas. */
module Programs {
  import opened Results
  import opened Values
  import opened Ast
  import opened ScopeChain
  import opened Semantics
  import ScopeProperties
  import SemanticsProperties

  function Output(program: seq<Stmt>, fuel: nat): seq<OutputLine>
  {
    Interpret(program, Initial, fuel).state.output
  }

  /** The statement tree of `let x = 1 + 2 * 3; print x;` prints 7. */
  lemma PrecedenceProgram()
    ensures Output([Var("x", Binary(Literal(1), "+", Binary(Literal(2), "*", Literal(3)))),
                    Print(Variable("x"))], 0) == [Printed(7)]
  {
  }

  /** The statement tree of `let a = 7; let b = 2; print a / b;` prints 3. */
  lemma DivisionProgram()
    ensures Output([Var("a", Literal(7)), Var("b", Literal(2)),
                    Print(Binary(Variable("a"), "/", Variable("b")))], 0) == [Printed(3)]
  {
  }

  /** The statement tree of `print 1 / 0; print 2;` reports division by zero and prints nothing. */
  lemma DivisionByZeroProgram()
    ensures Output([Print(Binary(Literal(1), "/", Literal(0))), Print(Literal(2))], 0)
            == [RuntimeErrorLine(DivideByZero)]
  {
  }

  /** A block whose one statement assigns `e` to a name of the enclosing
      scope rebinds it there, once the block's own scope is dropped. */
  lemma AssignInBlock(name: string, e: Expr, before: Int32, value: Int32, out: seq<OutputLine>, fuel: nat)
    requires Evaluate(e, [map[], map[name := before]]) == Eval(Ok(value), [map[], map[name := before]])
    ensures Exec(Block([ExprStmt(Assign(name, e))]), State([map[name := before]], out), fuel)
            == Completion(Normal, State([map[name := value]], out))
  {
    var inner: seq<Scope> := [map[], map[name := before]];
    ScopeProperties.AssignIsNearest(inner, name, value, 1);
    var r := ScopeChain.Assign(inner, name, value).value;
    assert |r| == 2 && r[0] == map[];
    assert r[1] == map[name := before][name := value] == map[name := value];
    assert r == [map[], map[name := value]];
    var ss := [ExprStmt(Assign(name, e))];
    assert [map[]] + [map[name := before]] == inner;
    assert Evaluate(Assign(name, e), inner) == Eval(Ok(value), r);
    assert Exec(ss[0], State(inner, out), fuel) == Completion(Normal, State(r, out));
    assert ExecSeq(ss, 0, State(inner, out), fuel) == Completion(Normal, State(r, out));
    assert r[1..] == [map[name := value]];
  }

  /** The statement tree of `let x = 1; { x = 2; } print x;` prints 2. */
  lemma AssignThroughBlockProgram()
    ensures Output([Var("x", Literal(1)), Block([ExprStmt(Assign("x", Literal(2)))]),
                    Print(Variable("x"))], 0) == [Printed(2)]
  {
    var p := [Var("x", Literal(1)), Block([ExprStmt(Assign("x", Literal(2)))]), Print(Variable("x"))];
    AssignInBlock("x", Literal(2), 1, 2, [], 0);
    var s1 := State([map["x" := 1]], []);
    var s2 := State([map["x" := 2]], []);
    assert Define([map[]], "x", 1) == [map["x" := 1]];
    assert Exec(p[0], Initial, 0) == Completion(Normal, s1);
    assert Exec(p[1], s1, 0) == Completion(Normal, s2);
    assert Exec(p[2], s2, 0) == Completion(Normal, State(s2.scopes, [Printed(2)]));
    assert ExecSeq(p, 2, s2, 0) == Completion(Normal, State(s2.scopes, [Printed(2)]));
    assert ExecSeq(p, 1, s1, 0) == Completion(Normal, State(s2.scopes, [Printed(2)]));
  }

  /** The statement tree of `let x = 1; { let x = 2; } print x;` prints 1. */
  lemma ShadowingProgram()
    ensures Output([Var("x", Literal(1)), Block([Var("x", Literal(2))]),
                    Print(Variable("x"))], 0) == [Printed(1)]
  {
  }

  /** `i < limit` */
  function Counter(limit: Int32): Expr
  {
    Binary(Variable("i"), "<", Literal(limit))
  }

  /** `{ i = i + 1; }` */
  const Increment := Block([ExprStmt(Assign("i", Binary(Variable("i"), "+", Literal(1))))])

  /** The one-scope state binding `i` to `n`, with nothing printed. */
  function Counted(n: Int32): State
  {
    State([map["i" := n]], [])
  }

  /** One run of the loop body adds one to `i`. */
  lemma IncrementStep(n: Int32, fuel: nat)
    requires n < MaxInt32
    ensures Exec(Increment, Counted(n), fuel) == Completion(Normal, Counted(n + 1))
  {
    var inner: seq<Scope> := [map[], map["i" := n]];
    ScopeProperties.GetFindsNearest(inner, "i", 1);
    assert Evaluate(Binary(Variable("i"), "+", Literal(1)), inner) == Eval(Ok(n + 1), inner);
    AssignInBlock("i", Binary(Variable("i"), "+", Literal(1)), n, n + 1, [], fuel);
  }

  /** `i < limit` where `i` is bound to `n`. */
  lemma CounterValue(limit: Int32, n: Int32)
    ensures Evaluate(Counter(limit), Counted(n).scopes) == Eval(Ok(if n < limit then 1 else 0), Counted(n).scopes)
  {
    ScopeProperties.GetFindsNearest(Counted(n).scopes, "i", 0);
  }

  /** An iteration of `while i < limit { i = i + 1; }` below the limit adds
      one to `i`. */
  lemma CountingStep(limit: Int32, n: Int32, fuel: nat, budget: nat)
    requires n < limit && budget > 0
    ensures Loop(Counter(limit), Increment, Counted(n), fuel, budget)
            == Loop(Counter(limit), Increment, Counted(n + 1), fuel, budget - 1)
  {
    CounterValue(limit, n);
    IncrementStep(n, fuel);
    SemanticsProperties.LoopIterates(Counter(limit), Increment, Counted(n), Counted(n + 1), fuel, budget, 1);
  }

  /** The loop `while i < limit { i = i + 1; }` started at `i == n` ends
      with `i == limit` when it may still iterate `limit - n` times. */
  lemma {:induction false} CountingLoop(limit: Int32, n: Int32, fuel: nat, budget: nat)
    requires n <= limit && budget >= limit - n
    ensures Loop(Counter(limit), Increment, Counted(n), fuel, budget) == Completion(Normal, Counted(limit))
    decreases limit - n
  {
    if n < limit {
      CountingStep(limit, n, fuel, budget);
      CountingLoop(limit, n + 1, fuel, budget - 1);
    } else {
      CounterValue(limit, n);
      SemanticsProperties.LoopExits(Counter(limit), Increment, Counted(n), fuel, budget);
    }
  }

  /** A three-statement program whose statements all complete normally
      prints what the last state holds. */
  lemma ThreeSteps(p: seq<Stmt>, s1: State, s2: State, s3: State, fuel: nat)
    requires |p| == 3
    requires Exec(p[0], Initial, fuel) == Completion(Normal, s1)
    requires |s1.scopes| > 0 && Exec(p[1], s1, fuel) == Completion(Normal, s2)
    requires |s2.scopes| > 0 && Exec(p[2], s2, fuel) == Completion(Normal, s3)
    ensures Output(p, fuel) == s3.output
  {
    assert ExecSeq(p, 2, s2, fuel) == Completion(Normal, s3);
    assert ExecSeq(p, 1, s1, fuel) == Completion(Normal, s3);
  }

  /** The statement tree of `let i = 0; while i < limit { i = i + 1; } print i;` prints `limit`
      whenever a loop may iterate at least `limit` times. */
  lemma CountingLoopProgram(limit: Int32, fuel: nat)
    requires 0 <= limit <= fuel
    ensures Output([Var("i", Literal(0)), While(Counter(limit), Increment), Print(Variable("i"))], fuel)
            == [Printed(limit)]
  {
    var p := [Var("i", Literal(0)), While(Counter(limit), Increment), Print(Variable("i"))];
    CountingLoop(limit, 0, fuel, fuel);
    assert Define([map[]], "i", 0) == [map["i" := 0]];
    ThreeSteps(p, Counted(0), Counted(limit), State(Counted(limit).scopes, [Printed(limit)]), fuel);
  }

  /** The statement tree of `print y;` with no `y` declared reports an undefined variable. */
  lemma UndefinedVariableProgram()
    ensures Output([Print(Variable("y"))], 0) == [RuntimeErrorLine(UndefinedVariable("y"))]
  {
  }
}
