/** `VariableContainer` of tem/var.py: a namespace whose attributes are the
    values of the variables it wraps, while indexing gives the variable
    objects themselves. Several names may share one variable object, as in
    Python. */
module Container {
  import opened Results
  import opened VarTypes
  import opened Variables

  class VariableContainer {
    var vars: map<string, Variable>

    ghost predicate Valid()
      reads this, vars.Values
    {
      forall n | n in vars :: vars[n].Valid()
    }

    /** The values seen through attribute access. */
    function Values(): (m: map<string, Val>)
      reads this, vars.Values
      ensures m.Keys == vars.Keys
      ensures forall n | n in m :: m[n] == vars[n].value
    {
      map n | n in vars :: vars[n].value
    }

    /** `VariableContainer(variable_dict)`: keeps the public entries that
      are variables. */
    constructor (ns: map<string, Binding<Variable>>)
      ensures vars == FilterVariables(ns)
    {
      vars := FilterVariables(ns);
    }

    /** Attribute read: the value of the variable, or `AttributeError`. */
    method GetAttr(name: string) returns (r: Result<Val, VarError>)
      ensures name in vars ==> r == Ok(vars[name].value)
      ensures name !in vars ==> r == Err(NoSuchVariable(name))
    {
      if name in vars {
        r := Ok(vars[name].value);
      } else {
        r := Err(NoSuchVariable(name));
      }
    }

    /** Attribute write: through the validated setter of the variable, or
      `AttributeError` for a name the container does not hold. Every name
      bound to the same variable object sees the new value. */
    method SetAttr(name: string, v: Val, env: Environ, graph: MutexGraph) returns (r: Outcome<VarError>)
      requires Valid()
      modifies env, if name in vars then {vars[name]} else {}
      ensures Valid() && vars == old(vars)
      ensures name !in vars ==> r == Fail(NoSuchVariable(name)) && env.vars == old(env.vars)
      ensures name in vars ==>
                var x := vars[name];
                var res := Assigned(old(x.State()), v, old(env.vars), old(graph.Blocked(x)));
                && (res.Err? ==> r == Fail(res.error) && Values() == old(Values()) && env.vars == old(env.vars))
                && (res.Ok? ==> && r == Pass && x.State() == res.value.0 && env.vars == res.value.1
                                && forall n | n in vars :: vars[n].value == if vars[n] == x then v else old(vars[n].value))
    {
      if name !in vars {
        return Fail(NoSuchVariable(name));
      }
      r := vars[name].SetValue(v, env, graph);
    }

    /** `container[name]`: the variable object, or `KeyError`. */
    method GetItem(name: string) returns (r: Result<Variable, VarError>)
      ensures name in vars ==> r == Ok(vars[name])
      ensures name !in vars ==> r == Err(NoSuchVariable(name))
    {
      if name in vars {
        r := Ok(vars[name]);
      } else {
        r := Err(NoSuchVariable(name));
      }
    }

    /** `container[name] = definition`: replaces the definition. */
    method SetItem(name: string, definition: Variable)
      modifies this
      ensures vars == old(vars)[name := definition]
    {
      vars := vars[name := definition];
    }

    /** `len(container)`. */
    method Len() returns (n: nat)
      ensures n == |vars.Keys|
    {
      n := |vars.Keys|;
    }
  }

  /** Only public variables survive construction, and filtering an already
      filtered namespace again changes nothing. */
  lemma FilterIdempotent<T>(ns: map<string, Binding<T>>)
    ensures var once := FilterVariables(ns);
            FilterVariables(map n | n in once :: IsVariable(once[n])) == once
  {
  }
}
