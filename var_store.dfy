/** `load`, `save` and `_load` of tem/var.py: variables defined per
    directory in `.tem/vars.py`, with values stored per directory, over a
    hierarchy of directories listed most specific first.

    Running a directory's `vars.py` is modelled by its `Source`: the
    bindings the file makes, in order, each either a `Variable(...)` call or
    some other object. A directory without `vars.py` has no source. A
    directory's variable store (the `shelve` file under `.tem`) is a
    `Shelf` holding the stored values and the version of tem that wrote
    them. */
module VarStore {
  import opened Results
  import opened Strings
  import opened Util
  import opened VarTypes
  import opened Variables
  import opened Container

  type Dir = string

  type Source = seq<(string, Binding<Decl>)>

  datatype Shelf = Shelf(values: map<string, Val>, version: string)

  /** The variable stores on disk. */
  class Disk {
    var shelves: map<Dir, Shelf>

    constructor (shelves: map<Dir, Shelf>)
      ensures this.shelves == shelves
    {
      this.shelves := shelves;
    }
  }

  // ---------------------------------------------------------------------
  // Running vars.py

  /** The namespace and environment after the bindings of `src`, starting
      from `ns`; the first failing `Variable(...)` call stops the run. */
  function ExecFrom(src: Source, ns: map<string, Binding<VarState>>, env: Env): Result<(map<string, Binding<VarState>>, Env), VarError>
    decreases |src|
  {
    if src == [] then Ok((ns, env))
    else match src[0].1
      case NotVariable => ExecFrom(src[1..], ns[src[0].0 := NotVariable], env)
      case IsVariable(d) =>
        match Construct(d, env)
        case Err(e) => Err(e)
        case Ok((s, env')) => ExecFrom(src[1..], ns[src[0].0 := IsVariable(s)], env')
  }

  /** `_load_variable_definitions`: the public variables `vars.py`
      defines. */
  function Exec(src: Source, env: Env): (r: Result<(map<string, VarState>, Env), VarError>)
    ensures r.Ok? ==> forall n | n in r.value.0 :: IsPublic(n)
  {
    match ExecFrom(src, map[], env)
    case Err(e) => Err(e)
    case Ok((ns, env')) => Ok((FilterVariables(ns), env'))
  }

  /** The declarations that the bindings of `src` leave in `ns`. */
  function ShapeFrom(src: Source, ns: map<string, Binding<Decl>>): map<string, Binding<Decl>>
    decreases |src|
  {
    if src == [] then ns else ShapeFrom(src[1..], ns[src[0].0 := src[0].1])
  }

  /** The public variables `src` defines, with the declaration that
      defines each: the last binding of the name. */
  function Declared(src: Source): map<string, Decl> {
    FilterVariables(ShapeFrom(src, map[]))
  }

  /** The names `src` binds, in order. */
  function Names(src: Source): (r: seq<string>)
    ensures |r| == |src| && forall i | 0 <= i < |src| :: r[i] == src[i].0
  {
    seq(|src|, i requires 0 <= i < |src| => src[i].0)
  }

  // ---------------------------------------------------------------------
  // Loading

  /** The stored names of a directory, in the order `vars.py` first binds
      them. */
  function OverlayOrder(src: Source, stored: map<string, Val>): (r: seq<string>)
    ensures forall k | 0 <= k < |r| :: r[k] in stored
    ensures NoDuplicates(r)
  {
    var u := Unique(Names(src));
    var r := Filter(u, (n: string) => n in stored);
    FilterKeepsDistinct(u, (n: string) => n in stored);
    r
  }

  lemma {:induction false} FilterKeepsDistinct<T>(s: seq<T>, p: T -> bool)
    requires NoDuplicates(s)
    ensures NoDuplicates(Filter(s, p))
  {
    if s != [] {
      FilterKeepsDistinct(s[1..], p);
      var rest := Filter(s[1..], p);
      assert forall k | 0 <= k < |rest| :: rest[k] in s[1..];
      assert s[0] !in s[1..];
    }
  }

  /** One step of the loop of `_load` over the stored values: the variable
      is set from the environment if its `from_env` applies, and to the
      stored value otherwise. A variable `_load` has just created has no
      registered excluders. */
  function Restore(s: VarState, v: Val, env: Env): (r: Result<(VarState, Env), VarError>)
    ensures r.Ok? ==> r.value.0 == s.(value := r.value.0.value)
  {
    match FromEnv(s, env, false)
    case Err(e) => Err(e)
    case Ok(Some(p)) => Ok(p)
    case Ok(None) => Assigned(s, v, env, false)
  }

  /** The loop of `_load` over the stored values, in the order `order`. */
  function Overlay(order: seq<string>, stored: map<string, Val>, defs: map<string, VarState>, env: Env): (r: Result<(map<string, VarState>, Env), VarError>)
    ensures r.Ok? ==> r.value.0.Keys == defs.Keys
    decreases |order|
  {
    if order == [] then Ok((defs, env))
    else
      var n := order[0];
      if n !in defs || n !in stored then Err(StoredNameUndefined)
      else match Restore(defs[n], stored[n], env)
        case Err(e) => Err(e)
        case Ok((s, env')) => Overlay(order[1..], stored, defs[n := s], env')
  }

  /** `_load(temdir, defaults)`. */
  function LoadDir(d: Dir, sources: map<Dir, Source>, shelves: map<Dir, Shelf>, defaults: bool, env: Env): (r: Result<(map<string, VarState>, Env), VarError>)
    ensures r.Ok? ==> forall n | n in r.value.0 :: IsPublic(n)
  {
    if d !in sources then Ok((map[], env))
    else match Exec(sources[d], env)
      case Err(e) => Err(e)
      case Ok((defs, env')) =>
        if defaults || d !in shelves then Ok((defs, env'))
        else if !(shelves[d].values.Keys <= defs.Keys) then Err(StoredNameUndefined)
        else Overlay(OverlayOrder(sources[d], shelves[d].values), shelves[d].values, defs, env')
  }

  /** `load(environment, defaults)` over the hierarchy `h`, most specific
      directory first: the directories are loaded from the least specific
      one on, and a later definition replaces an earlier one. */
  function LoadAll(h: seq<Dir>, sources: map<Dir, Source>, shelves: map<Dir, Shelf>, defaults: bool, env: Env): Result<(map<string, VarState>, Env), VarError>
    decreases |h|
  {
    if h == [] then Ok((map[], env))
    else match LoadAll(h[1..], sources, shelves, defaults, env)
      case Err(e) => Err(e)
      case Ok((acc, env')) =>
        match LoadDir(h[0], sources, shelves, defaults, env')
        case Err(e) => Err(e)
        case Ok((defs, env'')) => Ok((acc + defs, env''))
  }

  // ---------------------------------------------------------------------
  // Saving

  /** The environment after `save` has run every directory's `vars.py`,
      least specific first. */
  function ExecDirs(h: seq<Dir>, sources: map<Dir, Source>, env: Env): Result<Env, VarError>
    decreases |h|
  {
    if h == [] then Ok(env)
    else match ExecDirs(h[1..], sources, env)
      case Err(e) => Err(e)
      case Ok(env') =>
        if h[0] !in sources then Ok(env')
        else match Exec(sources[h[0]], env')
          case Err(e) => Err(e)
          case Ok((_, env'')) => Ok(env'')
  }

  /** The directory of `h` whose definitions own `n`: the most specific one
      that declares it. */
  function Owner(n: string, h: seq<Dir>, sources: map<Dir, Source>): (r: Option<Dir>)
    ensures r.Some? ==> r.value in h && r.value in sources && n in Declared(sources[r.value])
    ensures r.None? ==> forall i | 0 <= i < |h| :: h[i] !in sources || n !in Declared(sources[h[i]])
    decreases |h|
  {
    if h == [] then None
    else if h[0] in sources && n in Declared(sources[h[0]]) then Some(h[0])
    else Owner(n, h[1..], sources)
  }

  /** The values stored for `d`, none when it has no store yet. */
  function StoredAt(shelves: map<Dir, Shelf>, d: Dir): map<string, Val> {
    if d in shelves then shelves[d].values else map[]
  }

  /** The values of `values` that `d` owns. */
  function Owned(values: map<string, Val>, d: Dir, h: seq<Dir>, sources: map<Dir, Source>): map<string, Val> {
    map n | n in values && Owner(n, h, sources) == Some(d) :: values[n]
  }

  /** The stores after a successful `save`: every directory of `h` gets a
      store, its owned names overwritten and its other names kept, and the
      version recorded. */
  function Saved(values: map<string, Val>, h: seq<Dir>, sources: map<Dir, Source>, shelves: map<Dir, Shelf>, version: string): map<Dir, Shelf> {
    shelves + Targets(values, h, sources, shelves, version)
  }

  /** The new store of every directory of `h`. */
  function Targets(values: map<string, Val>, h: seq<Dir>, sources: map<Dir, Source>, shelves: map<Dir, Shelf>, version: string): (r: map<Dir, Shelf>)
    ensures forall d :: d in r <==> d in h
  {
    map d | d in h :: Shelf(StoredAt(shelves, d) + Owned(values, d, h, sources), version)
  }

  /** `save(container, environment)`. */
  function SaveAll(values: map<string, Val>, h: seq<Dir>, sources: map<Dir, Source>, shelves: map<Dir, Shelf>, env: Env, version: string): Result<(map<Dir, Shelf>, Env), VarError> {
    match ExecDirs(h, sources, env)
    case Err(e) => Err(e)
    case Ok(env') =>
      if exists n | n in values :: Owner(n, h, sources).None? then Err(NotDefined)
      else Ok((Saved(values, h, sources, shelves, version), env'))
  }

  // ---------------------------------------------------------------------
  // The same over variable objects

  function States(m: map<string, Variable>): (r: map<string, VarState>)
    reads m.Values
    ensures r.Keys == m.Keys
  {
    map n | n in m :: m[n].State()
  }

  /** No two names share a variable object. */
  predicate Injective(m: map<string, Variable>) {
    forall a, b | a in m && b in m && a != b :: m[a] != m[b]
  }

  /** Runs `src`, constructing its variables. */
  method ExecDefinitions(src: Source, env: Environ, graph: MutexGraph) returns (r: Result<map<string, Variable>, VarError>)
    modifies env
    ensures var res := Exec(src, old(env.vars));
            && (res.Err? ==> r == Err(res.error))
            && (res.Ok? ==> && r.Ok? && States(r.value) == res.value.0 && env.vars == res.value.1
                            && Injective(r.value)
                            && forall n | n in r.value :: fresh(r.value[n]) && r.value[n].Valid())
  {
    ghost var env0 := env.vars;
    var ns: map<string, Binding<Variable>> := map[];
    ghost var st: map<string, Binding<VarState>> := map[];
    var i := 0;
    while i < |src|
      invariant 0 <= i <= |src|
      invariant ExecFrom(src[i..], st, env.vars) == ExecFrom(src, map[], env0)
      invariant st.Keys == ns.Keys
      invariant forall n | n in ns :: ns[n].IsVariable? == st[n].IsVariable?
      invariant forall n | n in ns && ns[n].IsVariable? :: ns[n].v.State() == st[n].v && fresh(ns[n].v) && ns[n].v.Valid()
      invariant forall a, b | a in ns && b in ns && a != b && ns[a].IsVariable? && ns[b].IsVariable? :: ns[a].v != ns[b].v
    {
      var (name, b) := src[i];
      ExecFromAdvance(src, i, st, env.vars);
      match b {
        case NotVariable =>
          ns, st := ns[name := NotVariable], st[name := NotVariable];
        case IsVariable(d) =>
          var v := NewVariable(d, env, graph);
          if v.Err? {
            return Err(v.error);
          }
          ns, st := ns[name := IsVariable(v.value)], st[name := IsVariable(v.value.State())];
      }
      i := i + 1;
    }
    assert src[i..] == [];
    var defs := FilterVariables(ns);
    assert States(defs) == FilterVariables(st);
    r := Ok(defs);
  }

  /** One more binding of `vars.py`. */
  lemma ExecFromAdvance(src: Source, i: nat, ns: map<string, Binding<VarState>>, env: Env)
    requires i < |src|
    ensures src[i].1.NotVariable? ==>
      ExecFrom(src[i..], ns, env) == ExecFrom(src[i + 1..], ns[src[i].0 := NotVariable], env)
    ensures src[i].1.IsVariable? && Construct(src[i].1.v, env).Err? ==>
      ExecFrom(src[i..], ns, env) == Err(Construct(src[i].1.v, env).error)
    ensures src[i].1.IsVariable? && Construct(src[i].1.v, env).Ok? ==>
      var (st, env') := Construct(src[i].1.v, env).value;
      ExecFrom(src[i..], ns, env) == ExecFrom(src[i + 1..], ns[src[i].0 := IsVariable(st)], env')
  {
    assert src[i..][1..] == src[i + 1..];
  }

  /** `_load(temdir, defaults)` over variable objects. */
  method LoadDirectory(d: Dir, sources: map<Dir, Source>, shelves: map<Dir, Shelf>, defaults: bool, env: Environ, graph: MutexGraph)
    returns (r: Result<map<string, Variable>, VarError>)
    modifies env
    ensures var res := LoadDir(d, sources, shelves, defaults, old(env.vars));
            && (res.Err? ==> r == Err(res.error))
            && (res.Ok? ==> && r.Ok? && States(r.value) == res.value.0 && env.vars == res.value.1
                            && forall n | n in r.value :: fresh(r.value[n]) && r.value[n].Valid())
  {
    if d !in sources {
      return Ok(map[]);
    }
    var exec := ExecDefinitions(sources[d], env, graph);
    if exec.Err? {
      return Err(exec.error);
    }
    var defs := exec.value;
    if defaults || d !in shelves {
      return Ok(defs);
    }
    var stored := shelves[d].values;
    if !(stored.Keys <= defs.Keys) {
      return Err(StoredNameUndefined);
    }
    forall n | n in defs ensures graph.ExcludersOf(defs[n]) == [] {
    }
    r := OverlayStored(OverlayOrder(sources[d], stored), stored, defs, env, graph);
  }

  /** The loop body of `_load`: `if not set_from_env(): value = stored`. */
  method RestoreVariable(x: Variable, v: Val, env: Environ, graph: MutexGraph) returns (r: Outcome<VarError>)
    requires x.Valid() && graph.ExcludersOf(x) == []
    modifies x`value, env
    ensures x.Valid()
    ensures var res := Restore(old(x.State()), v, old(env.vars));
            && (res.Err? ==> r == Fail(res.error))
            && (res.Ok? ==> r == Pass && x.State() == res.value.0 && env.vars == res.value.1)
  {
    var fromEnv := x.SetFromEnv(env, graph);
    if fromEnv.Err? {
      return Fail(fromEnv.error);
    }
    r := Pass;
    if !fromEnv.value {
      r := x.SetValue(v, env, graph);
    }
  }

  /** States of the variables of `defs` are `cur`, and all are valid. */
  ghost predicate Holds(defs: map<string, Variable>, cur: map<string, VarState>)
    reads defs.Values
  {
    cur.Keys == defs.Keys && forall m | m in defs :: defs[m].State() == cur[m] && defs[m].Valid()
  }

  /** `RestoreVariable` applied to the variable named `n`; the others keep
      their states. */
  method RestoreNamed(n: string, v: Val, defs: map<string, Variable>, ghost cur: map<string, VarState>, env: Environ, graph: MutexGraph)
    returns (r: Outcome<VarError>)
    requires n in defs && Injective(defs) && Holds(defs, cur)
    requires graph.ExcludersOf(defs[n]) == []
    modifies defs[n], env
    ensures var res := Restore(cur[n], v, old(env.vars));
            && (res.Err? ==> r == Fail(res.error))
            && (res.Ok? ==> r == Pass && env.vars == res.value.1 && Holds(defs, cur[n := res.value.0]))
  {
    var x := defs[n];
    r := RestoreVariable(x, v, env, graph);
    forall m | m in defs && m != n ensures defs[m].State() == cur[m] && defs[m].Valid() {
      assert defs[m] != x;
    }
  }

  /** The loop of `_load` over the stored values. */
  method OverlayStored(order: seq<string>, stored: map<string, Val>, defs: map<string, Variable>, env: Environ, graph: MutexGraph)
    returns (r: Result<map<string, Variable>, VarError>)
    requires Injective(defs)
    requires forall k | 0 <= k < |order| :: order[k] in defs && order[k] in stored
    requires forall n | n in defs :: defs[n].Valid() && graph.ExcludersOf(defs[n]) == []
    modifies env, defs.Values
    ensures var res := Overlay(order, stored, old(States(defs)), old(env.vars));
            && (res.Err? ==> r == Err(res.error))
            && (res.Ok? ==> && r == Ok(defs) && States(defs) == res.value.0 && env.vars == res.value.1
                            && forall n | n in defs :: defs[n].Valid())
  {
    ghost var cur := States(defs);
    ghost var goal := Overlay(order, stored, cur, env.vars);
    var i := 0;
    while i < |order|
      invariant 0 <= i <= |order|
      invariant Holds(defs, cur)
      invariant Overlay(order[i..], stored, cur, env.vars) == goal
    {
      var n := order[i];
      OverlayUnfold(order[i..], stored, cur, env.vars);
      assert order[i..][1..] == order[i + 1..];
      ghost var res := Restore(cur[n], stored[n], env.vars);
      var outcome := RestoreNamed(n, stored[n], defs, cur, env, graph);
      if outcome.Fail? {
        return Err(outcome.error);
      }
      cur := cur[n := res.value.0];
      i := i + 1;
    }
    assert States(defs) == cur;
    r := Ok(defs);
  }

  lemma OverlayUnfold(order: seq<string>, stored: map<string, Val>, defs: map<string, VarState>, env: Env)
    requires order != [] && order[0] in defs && order[0] in stored
    ensures var res := Restore(defs[order[0]], stored[order[0]], env);
            Overlay(order, stored, defs, env) ==
              if res.Err? then Err(res.error) else Overlay(order[1..], stored, defs[order[0] := res.value.0], res.value.1)
  {
  }

  /** The loop of `load` over the directories. */
  method LoadDefinitions(h: seq<Dir>, sources: map<Dir, Source>, shelves: map<Dir, Shelf>, defaults: bool, env: Environ, graph: MutexGraph)
    returns (r: Result<map<string, Variable>, VarError>)
    modifies env
    ensures var res := LoadAll(h, sources, shelves, defaults, old(env.vars));
            && (res.Err? ==> r == Err(res.error))
            && (res.Ok? ==> && r.Ok? && States(r.value) == res.value.0 && env.vars == res.value.1
                            && forall n | n in r.value :: fresh(r.value[n]) && r.value[n].Valid() && IsPublic(n))
  {
    ghost var env0 := env.vars;
    var acc: map<string, Variable> := map[];
    ghost var cur: map<string, VarState> := map[];
    var i := |h|;
    while i > 0
      invariant 0 <= i <= |h|
      invariant LoadAll(h[i..], sources, shelves, defaults, env0) == Ok((cur, env.vars))
      invariant cur.Keys == acc.Keys
      invariant forall n | n in acc :: acc[n].State() == cur[n] && fresh(acc[n]) && acc[n].Valid() && IsPublic(n)
    {
      LoadAllAdvance(h, i - 1, sources, shelves, defaults, env0, cur, env.vars);
      var defs := LoadDirectory(h[i - 1], sources, shelves, defaults, env, graph);
      if defs.Err? {
        LoadAllSuffixErr(h, i - 1, sources, shelves, defaults, env0);
        return Err(defs.error);
      }
      acc := acc + defs.value;
      cur := cur + States(defs.value);
      i := i - 1;
    }
    assert h[0..] == h;
    assert States(acc) == cur;
    r := Ok(acc);
  }

  /** `load(environment, defaults)`: the loaded variables in a new
      container. */
  method Load(h: seq<Dir>, sources: map<Dir, Source>, disk: Disk, defaults: bool, env: Environ, graph: MutexGraph)
    returns (r: Result<VariableContainer, VarError>)
    modifies env
    ensures var res := LoadAll(h, sources, old(disk.shelves), defaults, old(env.vars));
            && (res.Err? ==> r == Err(res.error))
            && (res.Ok? ==> && r.Ok? && fresh(r.value) && r.value.Valid()
                            && States(r.value.vars) == res.value.0 && env.vars == res.value.1)
  {
    var defs := LoadDefinitions(h, sources, disk.shelves, defaults, env, graph);
    if defs.Err? {
      return Err(defs.error);
    }
    var c := new VariableContainer(map n | n in defs.value :: IsVariable(defs.value[n]));
    assert c.vars == defs.value;
    r := Ok(c);
  }

  /** One more directory of `load`'s loop, once the less specific ones
      have yielded `acc` and left the environment `mid`. */
  lemma LoadAllAdvance(h: seq<Dir>, j: nat, sources: map<Dir, Source>, shelves: map<Dir, Shelf>, defaults: bool, env: Env,
                       acc: map<string, VarState>, mid: Env)
    requires j < |h| && LoadAll(h[j + 1..], sources, shelves, defaults, env) == Ok((acc, mid))
    ensures var dir := LoadDir(h[j], sources, shelves, defaults, mid);
            dir.Err? ==> LoadAll(h[j..], sources, shelves, defaults, env) == Err(dir.error)
    ensures var dir := LoadDir(h[j], sources, shelves, defaults, mid);
            dir.Ok? ==> LoadAll(h[j..], sources, shelves, defaults, env) == Ok((acc + dir.value.0, dir.value.1))
  {
    assert h[j..][1..] == h[j + 1..];
  }

  /** A failure in the less specific part of the hierarchy is the failure
      of the whole `load`. */
  lemma {:induction false} LoadAllSuffixErr(h: seq<Dir>, j: nat, sources: map<Dir, Source>, shelves: map<Dir, Shelf>, defaults: bool, env: Env)
    requires j <= |h| && LoadAll(h[j..], sources, shelves, defaults, env).Err?
    ensures LoadAll(h, sources, shelves, defaults, env) == LoadAll(h[j..], sources, shelves, defaults, env)
    decreases j
  {
    if j > 0 {
      assert h[1..][j - 1..] == h[j..];
      LoadAllSuffixErr(h[1..], j - 1, sources, shelves, defaults, env);
    } else {
      assert h[j..] == h;
    }
  }

  /** A state agrees with the declaration that produced it. */
  predicate Fits(s: VarState, d: Decl) {
    s.kind == KindOf(d.varType) && s.varType == d.varType && s.fromEnv == d.fromEnv && s.toEnv == d.toEnv
  }

  /** A namespace of states agrees with a namespace of declarations. */
  predicate Agree(ns: map<string, Binding<VarState>>, shape: map<string, Binding<Decl>>) {
    && ns.Keys == shape.Keys
    && (forall n | n in ns :: ns[n].IsVariable? == shape[n].IsVariable?)
    && (forall n | n in ns && ns[n].IsVariable? && shape[n].IsVariable? :: Fits(ns[n].v, shape[n].v))
  }

  lemma {:induction false} ExecFromAgrees(src: Source, ns: map<string, Binding<VarState>>, shape: map<string, Binding<Decl>>, env: Env)
    requires Agree(ns, shape)
    requires ExecFrom(src, ns, env).Ok?
    ensures Agree(ExecFrom(src, ns, env).value.0, ShapeFrom(src, shape))
    decreases |src|
  {
    if src != [] {
      var (name, b) := src[0];
      match b
      case NotVariable =>
        ExecFromAgrees(src[1..], ns[name := NotVariable], shape[name := NotVariable], env);
      case IsVariable(d) =>
        var (s, env') := Construct(d, env).value;
        ExecFromAgrees(src[1..], ns[name := IsVariable(s)], shape[name := IsVariable(d)], env');
    }
  }

  /** Running `vars.py` defines exactly the declared variables, each with
      the type and environment names of its last declaration. */
  lemma ExecDeclares(src: Source, env: Env)
    requires Exec(src, env).Ok?
    ensures Exec(src, env).value.0.Keys == Declared(src).Keys
    ensures forall n | n in Declared(src) :: Fits(Exec(src, env).value.0[n], Declared(src)[n])
  {
    ExecFromAgrees(src, map[], map[], env);
  }

  /** One more directory of the first loop of `save`, once the less
      specific ones have left the environment `mid`. */
  lemma ExecDirsAdvance(h: seq<Dir>, j: nat, sources: map<Dir, Source>, env: Env, mid: Env)
    requires j < |h| && ExecDirs(h[j + 1..], sources, env) == Ok(mid)
    ensures h[j] !in sources ==> ExecDirs(h[j..], sources, env) == Ok(mid)
    ensures h[j] in sources && Exec(sources[h[j]], mid).Err? ==>
      ExecDirs(h[j..], sources, env) == Err(Exec(sources[h[j]], mid).error)
    ensures h[j] in sources && Exec(sources[h[j]], mid).Ok? ==>
      ExecDirs(h[j..], sources, env) == Ok(Exec(sources[h[j]], mid).value.1)
  {
    assert h[j..][1..] == h[j + 1..];
  }

  lemma {:induction false} ExecDirsSuffixErr(h: seq<Dir>, j: nat, sources: map<Dir, Source>, env: Env)
    requires j <= |h| && ExecDirs(h[j..], sources, env).Err?
    ensures ExecDirs(h, sources, env) == ExecDirs(h[j..], sources, env)
    decreases j
  {
    if j > 0 {
      assert h[1..][j - 1..] == h[j..];
      ExecDirsSuffixErr(h[1..], j - 1, sources, env);
    } else {
      assert h[j..] == h;
    }
  }

  /** `owners` gives each name of `values` its owner in `h`. */
  predicate OwnersSoFar(values: map<string, Val>, owners: map<string, Option<Dir>>, h: seq<Dir>, sources: map<Dir, Source>) {
    && (forall n | n in values :: n in owners && owners[n] == Owner(n, h, sources))
    && (forall n | n in owners :: n in values || owners[n].Some?)
  }

  /** One more directory of the first loop of `save`. */
  lemma OwnersAdvance(values: map<string, Val>, owners: map<string, Option<Dir>>, declared: set<string>, h: seq<Dir>, j: nat, sources: map<Dir, Source>)
    requires j < |h| && OwnersSoFar(values, owners, h[j + 1..], sources)
    requires h[j] in sources ==> declared == Declared(sources[h[j]]).Keys
    requires h[j] !in sources ==> declared == {}
    ensures OwnersSoFar(values, owners + map n | n in declared :: Some(h[j]), h[j..], sources)
  {
    assert h[j..][1..] == h[j + 1..];
  }

  /** Runs `src` for the names of the variables it defines. */
  method DefinedNames(src: Source, env: Environ, graph: MutexGraph) returns (r: Result<set<string>, VarError>)
    modifies env
    ensures var res := Exec(src, old(env.vars));
            && (res.Err? ==> r == Err(res.error))
            && (res.Ok? ==> r == Ok(Declared(src).Keys) && env.vars == res.value.1)
  {
    ghost var envBefore := env.vars;
    var defs := ExecDefinitions(src, env, graph);
    if defs.Err? {
      return Err(defs.error);
    }
    ExecDeclares(src, envBefore);
    return Ok(defs.value.Keys);
  }

  /** The first loop of `save`: runs every directory's `vars.py`, least
      specific first, and records for each name the last directory that
      defines it. */
  method FindOwners(values: map<string, Val>, h: seq<Dir>, sources: map<Dir, Source>, env: Environ, graph: MutexGraph)
    returns (r: Result<map<string, Option<Dir>>, VarError>)
    modifies env
    ensures var res := ExecDirs(h, sources, old(env.vars));
            && (res.Err? ==> r == Err(res.error))
            && (res.Ok? ==> r.Ok? && env.vars == res.value && OwnersSoFar(values, r.value, h, sources))
  {
    ghost var env0 := env.vars;
    var owners: map<string, Option<Dir>> := map n | n in values :: None;
    var i := |h|;
    while i > 0
      invariant 0 <= i <= |h|
      invariant ExecDirs(h[i..], sources, env0) == Ok(env.vars)
      invariant OwnersSoFar(values, owners, h[i..], sources)
    {
      var step := OwnDirectory(values, owners, h, i - 1, sources, env, graph, env0);
      if step.Err? {
        ExecDirsSuffixErr(h, i - 1, sources, env0);
        return Err(step.error);
      }
      owners := step.value;
      i := i - 1;
    }
    assert h[0..] == h;
    r := Ok(owners);
  }

  /** One pass of the first loop of `save`: runs the `vars.py` of `h[j]`,
      if it has one, and makes it the owner of the names it defines. */
  method OwnDirectory(values: map<string, Val>, owners: map<string, Option<Dir>>, h: seq<Dir>, j: nat,
                      sources: map<Dir, Source>, env: Environ, graph: MutexGraph, ghost env0: Env)
    returns (r: Result<map<string, Option<Dir>>, VarError>)
    requires j < |h| && OwnersSoFar(values, owners, h[j + 1..], sources)
    requires ExecDirs(h[j + 1..], sources, env0) == Ok(env.vars)
    modifies env
    ensures r.Err? ==> ExecDirs(h[j..], sources, env0) == Err(r.error)
    ensures r.Ok? ==> ExecDirs(h[j..], sources, env0) == Ok(env.vars) && OwnersSoFar(values, r.value, h[j..], sources)
  {
    var d := h[j];
    ExecDirsAdvance(h, j, sources, env0, env.vars);
    if d !in sources {
      OwnersAdvance(values, owners, {}, h, j, sources);
      return Ok(owners);
    }
    var names := DefinedNames(sources[d], env, graph);
    if names.Err? {
      return Err(names.error);
    }
    OwnersAdvance(values, owners, names.value, h, j, sources);
    return Ok(owners + map n | n in names.value :: Some(d));
  }

  /** The stores after the second loop of `save` has written `target`
      for the directories `h[j..]`. */
  ghost predicate WrittenFrom(cur: map<Dir, Shelf>, j: nat, h: seq<Dir>, shelves: map<Dir, Shelf>, target: map<Dir, Shelf>)
    requires j <= |h|
  {
    && (forall d :: d in cur <==> d in shelves || d in h[j..])
    && (forall d | d in cur :: if d in h[j..] then d in target && cur[d] == target[d] else d in shelves && cur[d] == shelves[d])
  }

  /** Writing the target store of `h[j - 1]` extends `WrittenFrom` by one
      directory. */
  lemma WriteStep(cur: map<Dir, Shelf>, j: nat, h: seq<Dir>, shelves: map<Dir, Shelf>, target: map<Dir, Shelf>)
    requires 0 < j <= |h| && h[j - 1] in target && WrittenFrom(cur, j, h, shelves, target)
    ensures WrittenFrom(cur[h[j - 1] := target[h[j - 1]]], j - 1, h, shelves, target)
  {
    assert forall e :: e in h[j - 1..] <==> e == h[j - 1] || e in h[j..] by {
      assert h[j - 1..] == [h[j - 1]] + h[j..];
    }
  }

  /** The store the loop writes for `h[j - 1]` is its target, also when a
      later position of `h` already wrote it. */
  lemma WriteTarget(cur: map<Dir, Shelf>, j: nat, values: map<string, Val>, h: seq<Dir>, sources: map<Dir, Source>, shelves: map<Dir, Shelf>, version: string)
    requires 0 < j <= |h| && WrittenFrom(cur, j, h, shelves, Targets(values, h, sources, shelves, version))
    ensures var d := h[j - 1];
            Shelf(StoredAt(cur, d) + Owned(values, d, h, sources), version) == Targets(values, h, sources, shelves, version)[d]
  {
    var d := h[j - 1];
    var owned := Owned(values, d, h, sources);
    if d in h[j..] {
      assert StoredAt(cur, d) == StoredAt(shelves, d) + owned;
      assert StoredAt(cur, d) + owned == StoredAt(shelves, d) + owned;
    } else {
      assert StoredAt(cur, d) == StoredAt(shelves, d);
    }
  }

  /** The owners the first loop found select the owned values. */
  lemma OwnedByOwners(values: map<string, Val>, owners: map<string, Option<Dir>>, d: Dir, h: seq<Dir>, sources: map<Dir, Source>)
    requires OwnersSoFar(values, owners, h, sources)
    ensures (map n | n in values && owners[n] == Some(d) :: values[n]) == Owned(values, d, h, sources)
  {
  }

  /** The second loop of `save`: every directory's store gets the values of
      the names it owns and the version. */
  method WriteStores(values: map<string, Val>, owners: map<string, Option<Dir>>, h: seq<Dir>, sources: map<Dir, Source>, disk: Disk, version: string)
    requires OwnersSoFar(values, owners, h, sources)
    modifies disk
    ensures disk.shelves == Saved(values, h, sources, old(disk.shelves), version)
  {
    ghost var shelves0 := disk.shelves;
    var j := |h|;
    while j > 0
      invariant 0 <= j <= |h|
      invariant WrittenFrom(disk.shelves, j, h, shelves0, Targets(values, h, sources, shelves0, version))
    {
      var d := h[j - 1];
      var prior := if d in disk.shelves then disk.shelves[d].values else map[];
      var mine := map n | n in values && owners[n] == Some(d) :: values[n];
      OwnedByOwners(values, owners, d, h, sources);
      WriteTarget(disk.shelves, j, values, h, sources, shelves0, version);
      WriteStep(disk.shelves, j, h, shelves0, Targets(values, h, sources, shelves0, version));
      disk.shelves := disk.shelves[d := Shelf(prior + mine, version)];
      j := j - 1;
    }
    assert h[0..] == h;
  }

  /** `save(container, environment)`. */
  method Save(c: VariableContainer, h: seq<Dir>, sources: map<Dir, Source>, disk: Disk, env: Environ, graph: MutexGraph, version: string)
    returns (r: Outcome<VarError>)
    modifies disk, env
    ensures var res := SaveAll(old(c.Values()), h, sources, old(disk.shelves), old(env.vars), version);
            && (res.Err? ==> r == Fail(res.error) && disk.shelves == old(disk.shelves))
            && (res.Ok? ==> r == Pass && disk.shelves == res.value.0 && env.vars == res.value.1)
  {
    var values := c.Values();
    var found := FindOwners(values, h, sources, env, graph);
    if found.Err? {
      return Fail(found.error);
    }
    var owners := found.value;
    if None in owners.Values {
      return Fail(NotDefined);
    }
    WriteStores(values, owners, h, sources, disk, version);
    r := Pass;
  }
}
