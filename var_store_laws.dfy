/** What `load` and `save` of tem/var.py promise together: `defaults`
    ignores the stores, `load` yields exactly the variables the hierarchy
    declares, each shaped by its most specific declaration, the environment
    outranks a stored value, and in a quiet environment `save` followed by
    `load` gives back the saved values. */
module VarStoreLaws {
  import opened Results
  import opened Strings
  import opened Util
  import opened VarTypes
  import opened Variables
  import opened VarStore

  // ---------------------------------------------------------------------
  // Loading with defaults

  /** `load(defaults=True)` reads no store. */
  lemma {:induction false} DefaultsIgnoreStores(h: seq<Dir>, sources: map<Dir, Source>, s1: map<Dir, Shelf>, s2: map<Dir, Shelf>, env: Env)
    ensures LoadAll(h, sources, s1, true, env) == LoadAll(h, sources, s2, true, env)
    decreases |h|
  {
    if h != [] {
      DefaultsIgnoreStores(h[1..], sources, s1, s2, env);
    }
  }

  // ---------------------------------------------------------------------
  // What load yields

  /** The loop over the stored values changes values only. */
  lemma {:induction false} OverlayKeepsShape(order: seq<string>, stored: map<string, Val>, defs: map<string, VarState>, env: Env)
    requires Overlay(order, stored, defs, env).Ok?
    ensures var out := Overlay(order, stored, defs, env).value.0;
            forall n | n in defs :: out[n] == defs[n].(value := out[n].value)
    decreases |order|
  {
    if order != [] {
      var n := order[0];
      var (s, env') := Restore(defs[n], stored[n], env).value;
      OverlayKeepsShape(order[1..], stored, defs[n := s], env');
    }
  }

  /** `_load` yields the variables its `vars.py` declares, each shaped by
      its declaration. */
  lemma LoadDirDeclares(d: Dir, sources: map<Dir, Source>, shelves: map<Dir, Shelf>, defaults: bool, env: Env)
    requires LoadDir(d, sources, shelves, defaults, env).Ok?
    ensures var out := LoadDir(d, sources, shelves, defaults, env).value.0;
            && (d !in sources ==> out == map[])
            && (d in sources ==> out.Keys == Declared(sources[d]).Keys
                                 && forall n | n in out :: Fits(out[n], Declared(sources[d])[n]))
  {
    if d in sources {
      ExecDeclares(sources[d], env);
      var (defs, env') := Exec(sources[d], env).value;
      if !defaults && d in shelves {
        OverlayKeepsShape(OverlayOrder(sources[d], shelves[d].values), shelves[d].values, defs, env');
      }
    }
  }

  /** `load` yields exactly the names some directory of the hierarchy
      declares, each variable shaped by the most specific declaration. */
  lemma {:induction false} LoadYieldsOwners(h: seq<Dir>, sources: map<Dir, Source>, shelves: map<Dir, Shelf>, defaults: bool, env: Env)
    requires LoadAll(h, sources, shelves, defaults, env).Ok?
    ensures var out := LoadAll(h, sources, shelves, defaults, env).value.0;
            && (forall n :: n in out <==> Owner(n, h, sources).Some?)
            && (forall n | n in out :: Fits(out[n], Declared(sources[Owner(n, h, sources).value])[n]))
    decreases |h|
  {
    if h != [] {
      LoadYieldsOwners(h[1..], sources, shelves, defaults, env);
      var env' := LoadAll(h[1..], sources, shelves, defaults, env).value.1;
      LoadDirDeclares(h[0], sources, shelves, defaults, env');
    }
  }

  // ---------------------------------------------------------------------
  // The environment outranks the store

  /** When a variable's `from_env` is set in the environment, the stored
      value plays no part: the variable takes the converted environment
      string, or loading fails with the conversion error. */
  lemma EnvironmentOutranksStore(s: VarState, v1: Val, v2: Val, env: Env)
    requires s.fromEnv != "" && s.fromEnv in env
    ensures Restore(s, v1, env) == Restore(s, v2, env)
    ensures Convert(env[s.fromEnv], s.varType).Err? ==> Restore(s, v1, env) == Err(ValueMismatch(VStr(env[s.fromEnv])))
    ensures Convert(env[s.fromEnv], s.varType).Ok? ==>
              Restore(s, v1, env).Ok? && Restore(s, v1, env).value.0.value == Convert(env[s.fromEnv], s.varType).value
  {
  }

  // ---------------------------------------------------------------------
  // Save, then load

  /** A declaration that neither reads nor writes the environment `env`,
      and that `Variable.__init__` accepts. */
  predicate QuietDecl(decl: Decl, env: Env) {
    ValidDecl(decl) && decl.toEnv == "" && (decl.fromEnv == "" || decl.fromEnv !in env)
  }

  predicate QuietSource(src: Source, env: Env) {
    forall k | 0 <= k < |src| && src[k].1.IsVariable? :: QuietDecl(src[k].1.v, env)
  }

  predicate Quiet(h: seq<Dir>, sources: map<Dir, Source>, env: Env) {
    forall d | d in h && d in sources :: QuietSource(sources[d], env)
  }

  /** The store of `d` holds only names `d` declares, each with a value of
      the declared type. */
  predicate StoreFits(d: Dir, sources: map<Dir, Source>, shelves: map<Dir, Shelf>)
    requires d in sources
  {
    d in shelves ==>
      && shelves[d].values.Keys <= Declared(sources[d]).Keys
      && forall n | n in shelves[d].values :: MatchesType(shelves[d].values[n], Declared(sources[d])[n].varType)
  }

  /** Every entry of `ShapeFrom` comes from `ns` or from a binding of
      `src`. */
  lemma {:induction false} ShapeFromEntries(src: Source, ns: map<string, Binding<Decl>>)
    ensures var out := ShapeFrom(src, ns);
            forall n | n in out :: (n in ns && out[n] == ns[n]) || exists k :: 0 <= k < |src| && src[k] == (n, out[n])
    decreases |src|
  {
    if src != [] {
      ShapeFromEntries(src[1..], ns[src[0].0 := src[0].1]);
      var out := ShapeFrom(src, ns);
      forall n | n in out
        ensures (n in ns && out[n] == ns[n]) || exists k :: 0 <= k < |src| && src[k] == (n, out[n])
      {
        if n !in ns[src[0].0 := src[0].1] || out[n] != ns[src[0].0 := src[0].1][n] {
          var k :| 0 <= k < |src[1..]| && src[1..][k] == (n, out[n]);
          assert src[k + 1] == (n, out[n]);
        } else if n == src[0].0 {
          assert src[0] == (n, out[n]);
        }
      }
    }
  }

  /** Each declared variable is bound by `src` under its name. */
  lemma DeclaredIsBound(src: Source, n: string)
    requires n in Declared(src)
    ensures exists k :: 0 <= k < |src| && src[k] == (n, IsVariable(Declared(src)[n]))
  {
    ShapeFromEntries(src, map[]);
  }

  /** A quiet `vars.py` runs without failing and leaves the environment as
      it was. */
  lemma {:induction false} ExecFromQuiet(src: Source, ns: map<string, Binding<VarState>>, env: Env)
    requires QuietSource(src, env)
    ensures ExecFrom(src, ns, env).Ok? && ExecFrom(src, ns, env).value.1 == env
    decreases |src|
  {
    if src != [] {
      assert QuietSource(src[1..], env) by {
        forall k | 0 <= k < |src[1..]| && src[1..][k].1.IsVariable? ensures QuietDecl(src[1..][k].1.v, env) {
          assert src[1..][k] == src[k + 1];
        }
      }
      match src[0].1
      case NotVariable =>
        ExecFromQuiet(src[1..], ns[src[0].0 := NotVariable], env);
      case IsVariable(decl) =>
        assert QuietDecl(src[0].1.v, env);
        ConstructWithoutEnv(decl, env);
        var s := Construct(decl, env).value.0;
        ExecFromQuiet(src[1..], ns[src[0].0 := IsVariable(s)], env);
    }
  }

  /** The first loop of `save` leaves a quiet environment as it was. */
  lemma {:induction false} ExecDirsQuiet(h: seq<Dir>, sources: map<Dir, Source>, env: Env)
    requires Quiet(h, sources, env)
    ensures ExecDirs(h, sources, env) == Ok(env)
    decreases |h|
  {
    if h != [] {
      ExecDirsQuiet(h[1..], sources, env);
      if h[0] in sources {
        ExecFromQuiet(sources[h[0]], map[], env);
      }
    }
  }

  /** In a quiet environment the loop over the stored values sets each
      name of `order` to its stored value and changes nothing else. */
  lemma {:induction false} OverlayQuiet(order: seq<string>, stored: map<string, Val>, defs: map<string, VarState>, env: Env)
    requires forall k | 0 <= k < |order| :: order[k] in defs && order[k] in stored
                                             && MatchesType(stored[order[k]], defs[order[k]].varType)
    requires forall n | n in defs :: defs[n].toEnv == "" && (defs[n].fromEnv == "" || defs[n].fromEnv !in env)
    ensures var r := Overlay(order, stored, defs, env);
            && r.Ok? && r.value.1 == env
            && forall n | n in defs :: r.value.0[n] == if n in order then defs[n].(value := stored[n]) else defs[n]
    decreases |order|
  {
    if order != [] {
      var n := order[0];
      var s := defs[n].(value := stored[n]);
      assert Restore(defs[n], stored[n], env) == Ok((s, env));
      OverlayQuiet(order[1..], stored, defs[n := s], env);
      var out := Overlay(order, stored, defs, env).value.0;
      forall m | m in defs ensures out[m] == if m in order then defs[m].(value := stored[m]) else defs[m] {
        if m != n {
          assert m in order <==> m in order[1..];
        }
      }
    }
  }

  /** Every variable of `ns` holds the initial value of its declaration in
      `shape`. */
  predicate StartsAtInitial(ns: map<string, Binding<VarState>>, shape: map<string, Binding<Decl>>) {
    forall n | n in ns && n in shape && ns[n].IsVariable? && shape[n].IsVariable? :: ns[n].v.value == InitialValue(shape[n].v)
  }

  /** In a quiet environment each variable `vars.py` creates starts at the
      initial value of its declaration. */
  lemma {:induction false} ExecFromStartsAtInitial(src: Source, ns: map<string, Binding<VarState>>, shape: map<string, Binding<Decl>>, env: Env)
    requires QuietSource(src, env) && StartsAtInitial(ns, shape)
    ensures ExecFrom(src, ns, env).Ok? && StartsAtInitial(ExecFrom(src, ns, env).value.0, ShapeFrom(src, shape))
    decreases |src|
  {
    if src != [] {
      assert QuietSource(src[1..], env) by {
        forall k | 0 <= k < |src[1..]| && src[1..][k].1.IsVariable? ensures QuietDecl(src[1..][k].1.v, env) {
          assert src[1..][k] == src[k + 1];
        }
      }
      var name := src[0].0;
      match src[0].1
      case NotVariable =>
        ExecFromStartsAtInitial(src[1..], ns[name := NotVariable], shape[name := NotVariable], env);
      case IsVariable(decl) =>
        assert QuietDecl(src[0].1.v, env);
        ConstructWithoutEnv(decl, env);
        var st := Construct(decl, env).value.0;
        ExecFromStartsAtInitial(src[1..], ns[name := IsVariable(st)], shape[name := IsVariable(decl)], env);
    }
  }

  /** In a quiet environment `vars.py` runs, leaves the environment alone
      and gives each declared variable the initial value of its last
      declaration. */
  lemma ExecQuiet(src: Source, env: Env)
    requires QuietSource(src, env)
    ensures Exec(src, env).Ok? && Exec(src, env).value.1 == env
    ensures Exec(src, env).value.0.Keys == Declared(src).Keys
    ensures forall n | n in Declared(src) :: Exec(src, env).value.0[n].value == InitialValue(Declared(src)[n])
  {
    ExecFromQuiet(src, map[], env);
    ExecFromStartsAtInitial(src, map[], map[], env);
    ExecDeclares(src, env);
  }

  /** The value `load` gives a name of directory `d`: the stored one when
      the store is read and holds it, the initial value of the
      declaration otherwise. */
  function LoadedValue(d: Dir, n: string, sources: map<Dir, Source>, shelves: map<Dir, Shelf>, defaults: bool): Val
    requires d in sources && n in Declared(sources[d])
  {
    if !defaults && d in shelves && n in shelves[d].values then shelves[d].values[n]
    else InitialValue(Declared(sources[d])[n])
  }

  /** In a quiet environment `_load` over a store that fits the
      directory's declarations yields its declared names, each with its
      `LoadedValue`. */
  lemma LoadDirQuiet(d: Dir, sources: map<Dir, Source>, shelves: map<Dir, Shelf>, defaults: bool, env: Env)
    requires d in sources && QuietSource(sources[d], env) && StoreFits(d, sources, shelves)
    ensures var r := LoadDir(d, sources, shelves, defaults, env);
            && r.Ok? && r.value.1 == env && r.value.0.Keys == Declared(sources[d]).Keys
            && forall n | n in r.value.0 :: r.value.0[n].value == LoadedValue(d, n, sources, shelves, defaults)
  {
    var src := sources[d];
    ExecQuiet(src, env);
    var defs := Exec(src, env).value.0;
    if !defaults && d in shelves {
      var stored := shelves[d].values;
      var order := OverlayOrder(src, stored);
      forall n | n in defs ensures defs[n].toEnv == "" && (defs[n].fromEnv == "" || defs[n].fromEnv !in env) {
        DeclaredIsBound(src, n);
        ExecDeclares(src, env);
      }
      forall n | n in stored ensures n in order {
        DeclaredIsBound(src, n);
        var k :| 0 <= k < |src| && src[k] == (n, IsVariable(Declared(src)[n]));
        assert Names(src)[k] == n;
        assert n in Unique(Names(src));
      }
      assert stored.Keys <= defs.Keys;
      assert LoadDir(d, sources, shelves, defaults, env) == Overlay(order, stored, defs, env);
      forall k | 0 <= k < |order|
        ensures order[k] in defs && order[k] in stored && MatchesType(stored[order[k]], defs[order[k]].varType)
      {
        ExecDeclares(src, env);
        assert Fits(defs[order[k]], Declared(src)[order[k]]);
      }
      OverlayQuiet(order, stored, defs, env);
      var out := Overlay(order, stored, defs, env).value.0;
      forall n | n in out ensures out[n].value == LoadedValue(d, n, sources, shelves, defaults) {
        assert n in order <==> n in stored;
      }
    } else {
      assert LoadDir(d, sources, shelves, defaults, env) == Ok((defs, env));
    }
  }

  /** In a quiet environment, `load` over stores that fit their
      directories succeeds, and each name takes the `LoadedValue` of its
      owner: the owner's stored value, or with `defaults` or nothing
      stored its default (`test_var.py` checks both). */
  lemma {:induction false} LoadAllQuiet(h: seq<Dir>, sources: map<Dir, Source>, shelves: map<Dir, Shelf>, defaults: bool, env: Env)
    requires Quiet(h, sources, env)
    requires forall d | d in h && d in sources :: StoreFits(d, sources, shelves)
    ensures var r := LoadAll(h, sources, shelves, defaults, env);
            && r.Ok? && r.value.1 == env
            && forall n | n in r.value.0 :: Owner(n, h, sources).Some? &&
                 r.value.0[n].value == LoadedValue(Owner(n, h, sources).value, n, sources, shelves, defaults)
    decreases |h|
  {
    if h != [] {
      LoadAllQuiet(h[1..], sources, shelves, defaults, env);
      if h[0] in sources {
        LoadDirQuiet(h[0], sources, shelves, defaults, env);
      }
    }
  }

  /** The stores `save` writes fit their directories when the values fit
      their owners' declarations and the earlier stores fit as well. */
  lemma SavedFits(values: map<string, Val>, h: seq<Dir>, sources: map<Dir, Source>, shelves: map<Dir, Shelf>, version: string)
    requires forall d | d in h && d in sources :: StoreFits(d, sources, shelves)
    requires forall n | n in values :: Owner(n, h, sources).Some?
                                       && MatchesType(values[n], Declared(sources[Owner(n, h, sources).value])[n].varType)
    ensures forall d | d in h && d in sources :: StoreFits(d, sources, Saved(values, h, sources, shelves, version))
  {
    var saved := Saved(values, h, sources, shelves, version);
    forall d | d in h && d in sources ensures StoreFits(d, sources, saved) {
      assert saved[d].values == StoredAt(shelves, d) + Owned(values, d, h, sources);
    }
  }

  /** After `save`, the store of each value's owner holds that value. */
  lemma SavedHolds(values: map<string, Val>, h: seq<Dir>, sources: map<Dir, Source>, shelves: map<Dir, Shelf>, version: string)
    requires forall n | n in values :: Owner(n, h, sources).Some?
    ensures var saved := Saved(values, h, sources, shelves, version);
            forall n | n in values :: var d := Owner(n, h, sources).value;
              d in saved && n in saved[d].values && saved[d].values[n] == values[n]
  {
    var saved := Saved(values, h, sources, shelves, version);
    forall n | n in values
      ensures var d := Owner(n, h, sources).value; d in saved && n in saved[d].values && saved[d].values[n] == values[n]
    {
      var d := Owner(n, h, sources).value;
      assert n in Owned(values, d, h, sources);
    }
  }

  /** In an environment that no variable reads or writes, `save` succeeds
      whenever every value has an owner, writes the stores `Saved`
      describes and leaves the environment as it was. */
  lemma SaveQuiet(values: map<string, Val>, h: seq<Dir>, sources: map<Dir, Source>, shelves: map<Dir, Shelf>, env: Env, version: string)
    requires Quiet(h, sources, env)
    requires forall n | n in values :: Owner(n, h, sources).Some?
    ensures SaveAll(values, h, sources, shelves, env, version) == Ok((Saved(values, h, sources, shelves, version), env))
  {
    ExecDirsQuiet(h, sources, env);
  }

  /** `save` followed by `load`, in an environment that no variable reads
      or writes, gives every saved name its saved value, provided each
      value has the type its owner declares and the stores already on disk
      fit their directories. */
  lemma SaveThenLoad(values: map<string, Val>, h: seq<Dir>, sources: map<Dir, Source>, shelves: map<Dir, Shelf>, env: Env, version: string)
    requires Quiet(h, sources, env)
    requires forall d | d in h && d in sources :: StoreFits(d, sources, shelves)
    requires forall n | n in values :: Owner(n, h, sources).Some?
                                       && MatchesType(values[n], Declared(sources[Owner(n, h, sources).value])[n].varType)
    ensures SaveAll(values, h, sources, shelves, env, version) == Ok((Saved(values, h, sources, shelves, version), env))
    ensures var r := LoadAll(h, sources, Saved(values, h, sources, shelves, version), false, env);
            && r.Ok? && r.value.1 == env
            && forall n | n in values :: n in r.value.0 && r.value.0[n].value == values[n]
  {
    SaveQuiet(values, h, sources, shelves, env, version);
    var saved := Saved(values, h, sources, shelves, version);
    SavedFits(values, h, sources, shelves, version);
    SavedHolds(values, h, sources, shelves, version);
    LoadAllQuiet(h, sources, saved, false, env);
    LoadYieldsOwners(h, sources, saved, false, env);
  }
}
