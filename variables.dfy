/** `Variable` and `Variant` of tem/var.py: a typed variable whose value is
    checked on construction and on every assignment, optionally taken from
    one environment variable (`from_env`) and mirrored into another
    (`to_env`), together with the registry `Variant._mutually_exclusive`
    that lets a variant be excluded by others.

    The process environment `os.environ` is the object `Environ`. An unset
    `from_env`/`to_env` (`None` or the empty string, both false in Python) is
    the empty string here. */
module Variables {
  import opened Results
  import opened VarTypes

  type Env = map<string, string>

  /** The process environment. */
  class Environ {
    var vars: Env

    constructor (vars: Env)
      ensures this.vars == vars
    {
      this.vars := vars;
    }
  }

  /** The Python class of a variable object: `Variable` or `Variant`. */
  datatype Kind = PlainKind | VariantKind

  /** The arguments of `Variable(var_type, default, from_env, to_env)`; a
      missing `default` is `VNone`. */
  datatype Decl = Decl(varType: VarType, default: Val, fromEnv: string, toEnv: string)

  /** What a variable object holds. */
  datatype VarState = VarState(kind: Kind, varType: VarType, fromEnv: string, toEnv: string, value: Val)

  /** `Variable.__new__` turns every `bool` variable into a `Variant`. */
  function KindOf(t: VarType): (k: Kind)
    ensures k == VariantKind <==> t == BoolVar
  {
    if t == BoolVar then VariantKind else PlainKind
  }

  /** The invariant every variable object keeps: it is a `Variant` exactly
      when its type is `bool`, and its value has its type. */
  predicate WellFormed(s: VarState) {
    && s.kind == KindOf(s.varType)
    && MatchesType(s.value, s.varType)
  }

  /** The effect of a successful assignment on the environment. */
  function Mirror(toEnv: string, v: Val, env: Env): Env {
    if toEnv != "" then env[toEnv := Str(v)] else env
  }

  /** The `value` setter: the one of `Variant` when `s.kind` is `VariantKind`,
      the one of `Variable` otherwise. `blocked` says whether some variant
      registered as excluding this one is currently true. */
  function Assigned(s: VarState, v: Val, env: Env, blocked: bool): (r: Result<(VarState, Env), VarError>)
    ensures r.Ok? <==> MatchesType(v, s.varType) && !(s.kind == VariantKind && Truthy(v) && blocked)
    ensures r.Ok? ==> r.value.0 == s.(value := v)
    ensures r.Err? && s.kind == VariantKind && Truthy(v) && blocked ==> r.error == Excluded
  {
    if s.kind == VariantKind && Truthy(v) && blocked then Err(Excluded)
    else if !MatchesType(v, s.varType) then Err(ValueMismatch(v))
    else Ok((s.(value := v), Mirror(s.toEnv, v, env)))
  }

  /** A successful assignment keeps a variable well formed, and writes
      `str(value)` into the `to_env` variable and nothing else. */
  lemma AssignedKeepsInvariant(s: VarState, v: Val, env: Env, blocked: bool)
    requires WellFormed(s)
    requires Assigned(s, v, env, blocked).Ok?
    ensures var (s', env') := Assigned(s, v, env, blocked).value;
            && WellFormed(s') && s'.value == v
            && (s.toEnv != "" ==> env' == env[s.toEnv := Str(v)])
            && (s.toEnv == "" ==> env' == env)
  {
  }

  /** Only a `Variant` set to a true value consults the registry; setting it
      to false, and every assignment to a plain `Variable`, never does. */
  lemma ExclusionOnlyGuardsTrue(s: VarState, v: Val, env: Env)
    requires s.kind == PlainKind || !Truthy(v)
    ensures Assigned(s, v, env, true) == Assigned(s, v, env, false)
  {
  }

  /** `set_from_env`: None when `from_env` is unset or absent from the
      environment; otherwise the environment string converted to the
      variable's type and assigned. */
  function FromEnv(s: VarState, env: Env, blocked: bool): (r: Result<Option<(VarState, Env)>, VarError>)
    ensures r == Ok(None) <==> s.fromEnv == "" || s.fromEnv !in env
    ensures r.Ok? && r.value.Some? ==>
              Convert(env[s.fromEnv], s.varType).Ok? &&
              Assigned(s, Convert(env[s.fromEnv], s.varType).value, env, blocked) == Ok(r.value.value)
  {
    if s.fromEnv == "" || s.fromEnv !in env then Ok(None)
    else match Convert(env[s.fromEnv], s.varType)
      case Err(e) => Err(e)
      case Ok(v) =>
        match Assigned(s, v, env, blocked)
        case Err(e) => Err(e)
        case Ok(p) => Ok(Some(p))
  }

  /** The checks `Variable.__init__` makes of its arguments. */
  predicate ValidDecl(d: Decl) {
    && !(d.varType.ListType? && d.default == VNone)
    && (d.default == VNone || MatchesType(d.default, d.varType))
  }

  /** The value a variable starts with when the environment gives none. */
  function InitialValue(d: Decl): Val {
    if d.default != VNone then d.default else DefaultValueForType(d.varType)
  }

  /** `Variable(var_type, default, from_env, to_env)`. */
  function Construct(d: Decl, env: Env): (r: Result<(VarState, Env), VarError>)
    ensures r.Ok? ==> ValidDecl(d) && WellFormed(r.value.0)
    ensures r.Ok? ==> var s := r.value.0;
                      s.varType == d.varType && s.fromEnv == d.fromEnv && s.toEnv == d.toEnv
  {
    if d.varType.ListType? && d.default == VNone then Err(DefaultRequired)
    else if d.default != VNone && !MatchesType(d.default, d.varType) then Err(DefaultMismatch(d.default))
    else
      var s := VarState(KindOf(d.varType), d.varType, d.fromEnv, d.toEnv, DefaultValueForType(d.varType));
      match FromEnv(s, env, false)
      case Err(e) => Err(e)
      case Ok(Some(p)) => Ok(p)
      case Ok(None) => Assigned(s, InitialValue(d), env, false)
  }

  /** A list type needs a default, and a default must have the variable's
      type. */
  lemma ConstructRejects(d: Decl, env: Env)
    ensures d.varType.ListType? && d.default == VNone ==> Construct(d, env) == Err(DefaultRequired)
    ensures d.default != VNone && !MatchesType(d.default, d.varType) ==> Construct(d, env) == Err(DefaultMismatch(d.default))
    ensures Construct(d, env).Ok? ==> ValidDecl(d)
  {
  }

  /** Without a usable `from_env` the variable starts at its default, or at
      its type's zero value (`None` for `Any`), mirrored into `to_env`. */
  lemma ConstructWithoutEnv(d: Decl, env: Env)
    requires ValidDecl(d)
    requires d.fromEnv == "" || d.fromEnv !in env
    ensures Construct(d, env).Ok?
    ensures Construct(d, env).value.0.value == InitialValue(d)
    ensures Construct(d, env).value.1 == Mirror(d.toEnv, InitialValue(d), env)
    ensures d.default == VNone && d.varType == AnyType ==> Construct(d, env).value.0.value == VNone
  {
  }

  /** When `from_env` is set in the environment it overrides the default:
      the converted string is the value, or the conversion error is
      raised. */
  lemma ConstructFromEnv(d: Decl, env: Env)
    requires ValidDecl(d)
    requires d.fromEnv != "" && d.fromEnv in env
    ensures Convert(env[d.fromEnv], d.varType).Err? ==>
              Construct(d, env) == Err(ValueMismatch(VStr(env[d.fromEnv])))
    ensures Convert(env[d.fromEnv], d.varType).Ok? ==>
              var v := Convert(env[d.fromEnv], d.varType).value;
              Construct(d, env).Ok? && Construct(d, env).value.0.value == v
              && Construct(d, env).value.1 == Mirror(d.toEnv, v, env)
  {
  }

  /** Registering `variants` as excluders of `variant` adds them to those
      already registered (the registry is a map from each variant to the
      variants that exclude it). */
  function Register(m: map<Variable, seq<Variable>>, variant: Variable, variants: seq<Variable>): (r: map<Variable, seq<Variable>>)
    ensures r.Keys == m.Keys + {variant}
    ensures variant in m ==> r[variant] == m[variant] + variants
    ensures variant !in m ==> r[variant] == variants
    ensures forall x :: x in m && x != variant ==> r[x] == m[x]
  {
    m[variant := (if variant in m then m[variant] else []) + variants]
  }

  /** `Variant.mutex` as written: the inverted membership test raises
      `KeyError` (None here) for a variant not yet registered, and resets the
      list of one that is. */
  function RegisterAsWritten(m: map<Variable, seq<Variable>>, variant: Variable, variants: seq<Variable>): Option<map<Variable, seq<Variable>>> {
    if variant in m then Some(m[variant := [] + variants]) else None
  }

  /** As written, registration can never start: from the empty registry
      every call fails, and a registered variant loses its earlier
      excluders. */
  lemma RegisterAsWrittenDefect(m: map<Variable, seq<Variable>>, variant: Variable, a: seq<Variable>, b: seq<Variable>)
    ensures RegisterAsWritten(map[], variant, a) == None
    ensures variant in m && m[variant] != [] && b == [] ==>
              RegisterAsWritten(m, variant, b).value[variant] != Register(m, variant, b)[variant]
  {
  }

  /** Two registrations for the same variant accumulate. */
  lemma RegisterAccumulates(m: map<Variable, seq<Variable>>, variant: Variable, a: seq<Variable>, b: seq<Variable>)
    requires variant !in m
    ensures Register(Register(m, variant, a), variant, b)[variant] == a + b
  {
  }

  /** `Variant._mutually_exclusive`, the class-level registry. */
  class MutexGraph {
    var excluders: map<Variable, seq<Variable>>

    constructor ()
      ensures excluders == map[]
    {
      excluders := map[];
    }

    function ExcludersOf(x: Variable): seq<Variable>
      reads this
    {
      if x in excluders then excluders[x] else []
    }

    /** Some variant registered as excluding `x` is currently true. */
    ghost predicate Blocked(x: Variable)
      reads this, ExcludersOf(x)
    {
      exists k :: 0 <= k < |ExcludersOf(x)| && Truthy(ExcludersOf(x)[k].value)
    }

    /** The exclusion test of the `Variant` setter. */
    method IsBlocked(x: Variable) returns (b: bool)
      ensures b == Blocked(x)
    {
      var list := ExcludersOf(x);
      b := false;
      var i := 0;
      while i < |list| && !b
        invariant 0 <= i <= |list|
        invariant b ==> Blocked(x)
        invariant !b ==> forall k :: 0 <= k < i ==> !Truthy(list[k].value)
      {
        b := Truthy(list[i].value);
        i := i + 1;
      }
    }

    /** `Variant.mutex(variants)(variant)`, with the registration adding to
      the earlier one. */
    method Mutex(variants: seq<Variable>, variant: Variable) returns (r: Variable)
      modifies this
      ensures r == variant
      ensures excluders == Register(old(excluders), variant, variants)
    {
      excluders := Register(excluders, variant, variants);
      r := variant;
    }
  }

  /** A variable object. `description` and `valueDocs` are the variable's
      `VariableDoc`. */
  class Variable {
    const kind: Kind
    const varType: VarType
    const fromEnv: string
    const toEnv: string
    var value: Val
    var description: string
    var valueDocs: map<Val, string>

    function State(): VarState
      reads this
    {
      VarState(kind, varType, fromEnv, toEnv, value)
    }

    ghost predicate Valid()
      reads this
    {
      && WellFormed(State())
      && forall k | k in valueDocs :: MatchesType(k, varType)
    }

    constructor (s: VarState)
      requires WellFormed(s)
      ensures Valid() && State() == s
      ensures description == "" && valueDocs == map[]
    {
      kind, varType, fromEnv, toEnv := s.kind, s.varType, s.fromEnv, s.toEnv;
      value := s.value;
      description := "";
      valueDocs := map[];
    }

    /** `_convert_to_var_type`. */
    method ConvertToVarType(text: string) returns (r: Result<Val, VarError>)
      ensures r == Convert(text, varType)
    {
      match varType
      case AnyType =>
        r := Ok(VStr(text));
      case PrimType(p) =>
        var c := CallType(p, text);
        r := if c.Some? then Ok(c.value) else Err(ValueMismatch(VStr(text)));
      case ListType(allowed) =>
        r := Err(ValueMismatch(VStr(text)));
        var i := 0;
        while i < |allowed|
          invariant 0 <= i <= |allowed|
          invariant FirstConvertible(allowed, text) == FirstConvertible(allowed[i..], text)
        {
          assert allowed[i..][1..] == allowed[i + 1..];
          if CallTypeOf(allowed[i], text) == Some(allowed[i]) {
            r := Ok(allowed[i]);
            return;
          }
          i := i + 1;
        }
    }

    /** The `value` setter. */
    method SetValue(v: Val, env: Environ, graph: MutexGraph) returns (r: Outcome<VarError>)
      requires Valid()
      modifies this`value, env
      ensures Valid()
      ensures var res := Assigned(old(State()), v, old(env.vars), old(graph.Blocked(this)));
              && (res.Err? ==> r == Fail(res.error) && value == old(value) && env.vars == old(env.vars))
              && (res.Ok? ==> r == Pass && State() == res.value.0 && env.vars == res.value.1)
    {
      if kind == VariantKind && Truthy(v) {
        var blocked := graph.IsBlocked(this);
        if blocked {
          return Fail(Excluded);
        }
      }
      if !MatchesType(v, varType) {
        return Fail(ValueMismatch(v));
      }
      value := v;
      if toEnv != "" {
        env.vars := env.vars[toEnv := Str(v)];
      }
      r := Pass;
    }

    /** `set_from_env`: Ok(true) when the value was taken from the
      environment. */
    method SetFromEnv(env: Environ, graph: MutexGraph) returns (r: Result<bool, VarError>)
      requires Valid()
      modifies this`value, env
      ensures Valid()
      ensures var res := FromEnv(old(State()), old(env.vars), old(graph.Blocked(this)));
              && (res.Err? ==> r == Err(res.error) && value == old(value) && env.vars == old(env.vars))
              && (res == Ok(None) ==> r == Ok(false) && value == old(value) && env.vars == old(env.vars))
              && (res.Ok? && res.value.Some? ==>
                    r == Ok(true) && State() == res.value.value.0 && env.vars == res.value.value.1)
    {
      if fromEnv == "" || fromEnv !in env.vars {
        return Ok(false);
      }
      var converted := ConvertToVarType(env.vars[fromEnv]);
      if converted.Err? {
        return Err(converted.error);
      }
      var outcome := SetValue(converted.value, env, graph);
      if outcome.Fail? {
        return Err(outcome.error);
      }
      r := Ok(true);
    }

    /** `VariableDoc.__setitem__`: documents one value of the variable's
      type. */
    method SetValueDoc(v: Val, doc: string) returns (r: Outcome<VarError>)
      requires Valid()
      modifies this`valueDocs
      ensures Valid()
      ensures MatchesType(v, varType) ==> r == Pass && valueDocs == old(valueDocs)[v := doc]
      ensures !MatchesType(v, varType) ==> r == Fail(ValueMismatch(v)) && valueDocs == old(valueDocs)
    {
      if !MatchesType(v, varType) {
        return Fail(ValueMismatch(v));
      }
      valueDocs := valueDocs[v := doc];
      r := Pass;
    }
  }

  /** `Variable(...)`: a new variable, or the error `__init__` raises. A
      fresh variant has no registered excluders, so the registry plays no
      part. */
  method NewVariable(d: Decl, env: Environ, graph: MutexGraph) returns (r: Result<Variable, VarError>)
    modifies env
    ensures var res := Construct(d, old(env.vars));
            && (res.Err? ==> r == Err(res.error) && env.vars == old(env.vars))
            && (res.Ok? ==> && r.Ok? && fresh(r.value) && r.value.Valid()
                            && r.value.State() == res.value.0 && env.vars == res.value.1
                            && r.value.valueDocs == map[])
  {
    if d.varType.ListType? && d.default == VNone {
      return Err(DefaultRequired);
    }
    if d.default != VNone && !MatchesType(d.default, d.varType) {
      return Err(DefaultMismatch(d.default));
    }
    var v := new Variable(VarState(KindOf(d.varType), d.varType, d.fromEnv, d.toEnv, DefaultValueForType(d.varType)));
    assert graph.ExcludersOf(v) == [];
    var fromEnv := v.SetFromEnv(env, graph);
    if fromEnv.Err? {
      return Err(fromEnv.error);
    }
    if !fromEnv.value {
      var outcome := v.SetValue(InitialValue(d), env, graph);
    }
    r := Ok(v);
  }
}
