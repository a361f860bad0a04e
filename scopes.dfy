/** The chain of variable scopes as a value: `scopes[0]` is the current
    (innermost) scope, each later entry the one enclosing the one before,
    the last the global scope. `Get`, `Assign` and `Define` walk it the way
    the environment walks its `enclosing` links. */
module ScopeChain {
  import opened Results
  import opened Values

  type Scope = map<string, Int32>

  /** `k` is the innermost scope that binds `name`. */
  predicate IsNearest(scopes: seq<Scope>, name: string, k: nat)
  {
    k < |scopes| && name in scopes[k] && forall m | 0 <= m < k :: name !in scopes[m]
  }

  predicate Bound(scopes: seq<Scope>, name: string)
  {
    exists k | 0 <= k < |scopes| :: name in scopes[k]
  }

  function Bind(scope: Scope, name: string, value: Int32): Scope
  {
    scope[name := value]
  }

  /** The value of the innermost binding of `name`. */
  function Get(scopes: seq<Scope>, name: string): (r: Result<Int32, RuntimeError>)
    ensures r.Err? ==> r.error == UndefinedVariable(name)
  {
    if |scopes| == 0 then Err(UndefinedVariable(name))
    else if name in scopes[0] then Ok(scopes[0][name])
    else Get(scopes[1..], name)
  }

  /** Binds `name` in the current scope, replacing a binding already there. */
  function Define(scopes: seq<Scope>, name: string, value: Int32): (r: seq<Scope>)
    requires |scopes| > 0
    ensures |r| == |scopes| && r[1..] == scopes[1..]
    ensures r[0].Keys == scopes[0].Keys + {name} && r[0][name] == value
    ensures forall x | x in scopes[0] && x != name :: r[0][x] == scopes[0][x]
  {
    scopes[0 := Bind(scopes[0], name, value)]
  }

  /** Rebinds `name` in the innermost scope that binds it; fails when no
      scope does. */
  function Assign(scopes: seq<Scope>, name: string, value: Int32): (r: Result<seq<Scope>, RuntimeError>)
    ensures r.Err? ==> r.error == UndefinedVariable(name)
    ensures r.Ok? ==> |r.value| == |scopes|
  {
    if |scopes| == 0 then Err(UndefinedVariable(name))
    else if name in scopes[0] then Ok(scopes[0 := Bind(scopes[0], name, value)])
    else
      match Assign(scopes[1..], name, value)
      case Err(e) => Err(e)
      case Ok(rest) => Ok([scopes[0]] + rest)
  }
}

/** What the scope chain promises. */
module ScopeProperties {
  import opened Results
  import opened Values
  import opened ScopeChain

  /** `Get` succeeds with the value of the innermost scope binding the
      name, and fails only when no scope binds it. */
  lemma {:induction false} GetSpec(scopes: seq<Scope>, name: string)
    ensures var r := Get(scopes, name);
            && (r.Ok? ==> exists k: nat :: IsNearest(scopes, name, k) && r.value == scopes[k][name])
            && (r.Err? ==> !Bound(scopes, name))
  {
    if |scopes| > 0 {
      if name in scopes[0] {
        assert IsNearest(scopes, name, 0);
      } else {
        GetSpec(scopes[1..], name);
        var r := Get(scopes[1..], name);
        if r.Ok? {
          var k: nat :| IsNearest(scopes[1..], name, k) && r.value == scopes[1..][k][name];
          assert IsNearest(scopes, name, k + 1);
        } else {
          assert forall k | 1 <= k < |scopes| :: scopes[k] == scopes[1..][k - 1];
        }
      }
    }
  }

  /** `Assign` fails exactly when no scope binds the name, and otherwise
      rebinds it in the innermost scope that does. */
  lemma {:induction false} AssignSpec(scopes: seq<Scope>, name: string, value: Int32)
    ensures var r := Assign(scopes, name, value);
            && (r.Err? <==> !Bound(scopes, name))
            && (r.Ok? ==> exists k: nat :: IsNearest(scopes, name, k) && r.value == scopes[k := Bind(scopes[k], name, value)])
  {
    if |scopes| > 0 {
      if name in scopes[0] {
        assert IsNearest(scopes, name, 0);
      } else {
        AssignSpec(scopes[1..], name, value);
        match Assign(scopes[1..], name, value)
        case Err(_) =>
          assert forall k | 1 <= k < |scopes| :: scopes[k] == scopes[1..][k - 1];
        case Ok(rest) =>
          var k: nat :| IsNearest(scopes[1..], name, k) && rest == scopes[1..][k := Bind(scopes[1..][k], name, value)];
          assert IsNearest(scopes, name, k + 1);
          assert [scopes[0]] + rest == scopes[k + 1 := Bind(scopes[k + 1], name, value)];
      }
    }
  }

  /** At most one scope is the innermost one binding a name. */
  lemma NearestIsUnique(scopes: seq<Scope>, name: string, k: nat, m: nat)
    requires IsNearest(scopes, name, k) && IsNearest(scopes, name, m)
    ensures k == m
  {
  }

  /** `Get` yields exactly the value bound in the innermost scope that
      binds the name, and fails exactly when no scope does. */
  lemma GetFindsNearest(scopes: seq<Scope>, name: string, k: nat)
    requires IsNearest(scopes, name, k)
    ensures Get(scopes, name) == Ok(scopes[k][name])
  {
    GetSpec(scopes, name);
    var r := Get(scopes, name);
    if r.Ok? {
      var j: nat :| IsNearest(scopes, name, j) && r.value == scopes[j][name];
      NearestIsUnique(scopes, name, j, k);
    }
  }

  /** After `Define(n, v)`, `Get(n)` returns `v`, whatever was bound
      before, in this scope or any other. */
  lemma GetAfterDefine(scopes: seq<Scope>, name: string, value: Int32)
    requires |scopes| > 0
    ensures Get(Define(scopes, name, value), name) == Ok(value)
  {
    GetFindsNearest(Define(scopes, name, value), name, 0);
  }

  /** `Define` touches the current scope only, and only the one name in
      it: every other name reads as before, and enclosing scopes are
      unchanged. */
  lemma DefineIsLocal(scopes: seq<Scope>, name: string, value: Int32, other: string)
    requires |scopes| > 0 && other != name
    ensures |Define(scopes, name, value)| == |scopes|
    ensures Define(scopes, name, value)[1..] == scopes[1..]
    ensures Get(Define(scopes, name, value), other) == Get(scopes, other)
  {
    var d := Define(scopes, name, value);
    assert forall k | 0 <= k < |scopes| :: (other in d[k] <==> other in scopes[k]);
    if Bound(scopes, other) {
      var k: nat :| k < |scopes| && other in scopes[k];
      var n := NearestBelow(scopes, other, k);
      assert IsNearest(d, other, n);
      GetFindsNearest(scopes, other, n);
      GetFindsNearest(d, other, n);
    } else {
      assert !Bound(d, other);
    }
  }

  /** The innermost scope binding `name`, given that scope `k` binds it. */
  lemma NearestBelow(scopes: seq<Scope>, name: string, k: nat) returns (n: nat)
    requires k < |scopes| && name in scopes[k]
    ensures n <= k && IsNearest(scopes, name, n)
    decreases k
  {
    if exists m | 0 <= m < k :: name in scopes[m] {
      var m :| 0 <= m < k && name in scopes[m];
      n := NearestBelow(scopes, name, m);
    } else {
      n := k;
    }
  }

  /** A binding made in a fresh inner scope hides an outer binding of the
      same name without changing it; leaving the inner scope uncovers the
      outer value again. */
  lemma InnerDefinitionShadows(scopes: seq<Scope>, name: string, value: Int32)
    ensures var inner := Define([map[]] + scopes, name, value);
            && Get(inner, name) == Ok(value)
            && inner[1..] == scopes
  {
    GetAfterDefine([map[]] + scopes, name, value);
  }

  /** `Assign` never creates a binding: on success every scope binds the
      same names as before, and it fails (changing nothing) exactly when no
      scope binds the name. */
  lemma AssignNeverCreates(scopes: seq<Scope>, name: string, value: Int32)
    ensures Assign(scopes, name, value).Err? <==> Get(scopes, name).Err?
    ensures Assign(scopes, name, value).Ok? ==>
              forall k | 0 <= k < |scopes| :: Assign(scopes, name, value).value[k].Keys == scopes[k].Keys
  {
    GetSpec(scopes, name);
    AssignSpec(scopes, name, value);
    if Bound(scopes, name) {
      var k: nat :| k < |scopes| && name in scopes[k];
      var n := NearestBelow(scopes, name, k);
      GetFindsNearest(scopes, name, n);
    }
  }

  /** `Assign` rebinds the name in the innermost scope that binds it and
      leaves every other scope as it was; `Get` then returns the new value. */
  lemma AssignIsNearest(scopes: seq<Scope>, name: string, value: Int32, k: nat)
    requires IsNearest(scopes, name, k)
    ensures Assign(scopes, name, value).Ok?
    ensures var r := Assign(scopes, name, value).value;
            && r[k] == scopes[k][name := value]
            && (forall m | 0 <= m < |scopes| && m != k :: r[m] == scopes[m])
            && Get(r, name) == Ok(value)
  {
    AssignSpec(scopes, name, value);
    var r := Assign(scopes, name, value).value;
    var j: nat :| IsNearest(scopes, name, j) && r == scopes[j := Bind(scopes[j], name, value)];
    NearestIsUnique(scopes, name, j, k);
    assert IsNearest(r, name, k);
    GetFindsNearest(r, name, k);
  }
}
