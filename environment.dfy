/** The runtime environment as the original builds it: one object per
    scope, holding a dictionary of bindings and a link to the enclosing
    scope fixed at construction. Its view as a chain of scopes is
    `Scopes()`, and every operation is proved against `ScopeChain`. */
module Environments {
  import opened Results
  import opened Values
  import ScopeChain

  class Environment {
    var values: map<string, Int32>
    const enclosing: Environment?
    /** The enclosing scopes, innermost first. */
    ghost const ancestors: seq<Environment>

    /** The `enclosing` links form a finite chain that `ancestors` lists. */
    ghost predicate Valid()
      decreases |ancestors|
    {
      if enclosing == null then ancestors == []
      else
        && |ancestors| > 0
        && ancestors[0] == enclosing
        && enclosing.ancestors == ancestors[1..]
        && enclosing.Valid()
    }

    /** The bindings of this scope, then those of each enclosing scope. */
    ghost function Scopes(): (r: seq<ScopeChain.Scope>)
      requires Valid()
      reads this, ancestors
      ensures |r| == |ancestors| + 1 && r[0] == values
      decreases |ancestors|
    {
      if enclosing == null then [values] else [values] + enclosing.Scopes()
    }

    /** Dropping this scope from the chain leaves the enclosing one's. */
    lemma EnclosingScopes()
      requires Valid() && enclosing != null
      ensures Scopes()[1..] == enclosing.Scopes()
    {
    }

    /** An environment is none of its own ancestors, so the chain has no
        cycle and changing one scope leaves the others alone. */
    lemma {:induction false} Acyclic()
      requires Valid()
      ensures this !in ancestors
      ensures enclosing != null ==> this !in enclosing.ancestors
      decreases |ancestors|
    {
      if enclosing != null {
        enclosing.Acyclic();
        AncestorsShrink();
      }
    }

    /** Each ancestor's own ancestors are the rest of the list. */
    lemma {:induction false} AncestorsShrink()
      requires Valid()
      ensures forall k | 0 <= k < |ancestors| :: ancestors[k].ancestors == ancestors[k + 1..] && ancestors[k].Valid()
      decreases |ancestors|
    {
      if enclosing != null {
        enclosing.AncestorsShrink();
        forall k | 0 <= k < |ancestors|
          ensures ancestors[k].ancestors == ancestors[k + 1..] && ancestors[k].Valid()
        {
          if k > 0 {
            assert ancestors[k] == enclosing.ancestors[k - 1];
            assert enclosing.ancestors[k..] == ancestors[k + 1..];
          }
        }
      }
    }

    constructor (enclosing: Environment?)
      requires enclosing != null ==> enclosing.Valid()
      ensures Valid() && this.enclosing == enclosing && values == map[]
      ensures Scopes() == [map[]] + (if enclosing == null then [] else enclosing.Scopes())
    {
      values := map[];
      this.enclosing := enclosing;
      ancestors := if enclosing == null then [] else [enclosing] + enclosing.ancestors;
    }

    /** Binds `name` here, replacing any binding of it in this scope. */
    method Define(name: string, value: Int32)
      requires Valid()
      modifies this
      ensures Valid()
      ensures Scopes() == ScopeChain.Define(old(Scopes()), name, value)
    {
      Acyclic();
      values := values[name := value];
    }

    /** The value of the innermost binding of `name`. */
    method Get(name: string) returns (r: Result<Int32, RuntimeError>)
      requires Valid()
      ensures r == ScopeChain.Get(Scopes(), name)
      decreases |ancestors|
    {
      if name in values {
        return Ok(values[name]);
      }
      if enclosing != null {
        r := enclosing.Get(name);
        return;
      }
      return Err(UndefinedVariable(name));
    }

    /** Rebinds `name` in the innermost scope that binds it; fails, changing
        nothing, when no scope does. */
    method Assign(name: string, value: Int32) returns (r: Result<(), RuntimeError>)
      requires Valid()
      modifies this, ancestors
      ensures Valid()
      ensures var spec := ScopeChain.Assign(old(Scopes()), name, value);
              && (spec.Ok? ==> r == Ok(()) && Scopes() == spec.value)
              && (spec.Err? ==> r == Err(spec.error) && Scopes() == old(Scopes()))
      decreases |ancestors|
    {
      Acyclic();
      if name in values {
        values := values[name := value];
        return Ok(());
      }
      if enclosing != null {
        r := enclosing.Assign(name, value);
        return;
      }
      return Err(UndefinedVariable(name));
    }
  }
}
