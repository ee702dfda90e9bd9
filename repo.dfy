/** Repository specifications (`tem/repo.py`): which repositories a spec
    includes or excludes, how names resolve against the lookup path, and
    where a template is found. */
module Repo {
  import opened Results
  import opened Strings
  import opened Util

  /** The three flag bits of a spec type. */
  const INCLUDE: nat := 1
  const EXCLUDE: nat := 2
  const FROM_LOOKUP_PATH: nat := 4

  /** `spec_type & flag` is non-zero, for a single-bit `flag`. */
  predicate Has(specType: nat, flag: nat)
    requires flag == INCLUDE || flag == EXCLUDE || flag == FROM_LOOKUP_PATH
  {
    (specType / flag) % 2 == 1
  }

  /** A spec's contents as a value: its type and the paths, names and
      sub-specs it holds, in order. */
  datatype Spec = Spec(specType: nat, data: seq<Item>)
  datatype Item = PathItem(path: string) | SubItem(sub: Spec)

  /** What a caller may pass as `specs`. */
  datatype Elem = ElemText(text: string) | ElemSpec(spec: Spec) | ElemOther
  datatype SpecArg =
    | NoSpecs
    | Text(text: string)
    | OneSpec(spec: Spec)
    | Many(elems: seq<Elem>)
    | Number(n: nat)
    | OtherArg

  datatype RepoError = InvalidType | IncludeAndExclude | SpecsWithLookupPath | BadSpecs

  /** What the rest of `tem` supplies: the lookup path `repo_path`, the name
      a repository has configured (`get_name`), and `util.abspath`. */
  datatype RepoEnv = RepoEnv(
    repoPath: seq<string>,
    nameOf: string -> string,
    abspath: string -> string)

  /** One path item per line, in order. */
  function PathItems(lines: seq<string>): (r: seq<Item>)
    ensures |r| == |lines| && forall i :: 0 <= i < |r| ==> r[i] == PathItem(lines[i])
  {
    seq(|lines|, i requires 0 <= i < |lines| => PathItem(lines[i]))
  }

  lemma PathItemsAppend(a: seq<string>, b: seq<string>)
    ensures PathItems(a + b) == PathItems(a) + PathItems(b)
  {
  }

  function ElemItem(e: Elem): Item
    requires !e.ElemOther?
  {
    if e.ElemText? then PathItem(e.text) else SubItem(e.spec)
  }

  /** The items `append(specs)` adds, or the error it raises. */
  function Appended(specs: SpecArg): (r: Result<seq<Item>, RepoError>)
    ensures r.Ok? <==> specs.Text? || specs.OneSpec? ||
                       (specs.Many? && forall i :: 0 <= i < |specs.elems| ==> !specs.elems[i].ElemOther?)
    ensures r.Err? ==> r.error == BadSpecs
    ensures specs.Text? ==>
      && |r.value| == |NonEmptyLines(specs.text)|
      && forall i :: 0 <= i < |r.value| ==> r.value[i] == PathItem(NonEmptyLines(specs.text)[i])
    ensures specs.OneSpec? ==> r.value == [SubItem(specs.spec)]
    ensures specs.Many? && r.Ok? ==>
      && |r.value| == |specs.elems|
      && forall i :: 0 <= i < |r.value| ==>
        (specs.elems[i].ElemText? ==> r.value[i] == PathItem(specs.elems[i].text)) &&
        (specs.elems[i].ElemSpec? ==> r.value[i] == SubItem(specs.elems[i].spec))
  {
    match specs
    case Text(text) =>
      Ok(PathItems(NonEmptyLines(text)))
    case OneSpec(spec) => Ok([SubItem(spec)])
    case Many(elems) =>
      if forall i :: 0 <= i < |elems| ==> !elems[i].ElemOther? then
        Ok(seq(|elems|, i requires 0 <= i < |elems| => ElemItem(elems[i])))
      else Err(BadSpecs)
    case _ => Err(BadSpecs)
  }

  /** The type has at least one of the three flags. */
  predicate HasSomeFlag(specType: nat) {
    Has(specType, INCLUDE) || Has(specType, EXCLUDE) || Has(specType, FROM_LOOKUP_PATH)
  }

  /** A type `RepoSpec` accepts: some flag, and not both INCLUDE and EXCLUDE. */
  predicate ValidType(specType: nat) {
    HasSomeFlag(specType) && !(Has(specType, INCLUDE) && Has(specType, EXCLUDE))
  }

  /** The spec `RepoSpec(specs, spec_type)` builds, or the error it raises;
      a `spec_type` of 0 stands for an unspecified one. A built spec has at
      least one flag, never both INCLUDE and EXCLUDE, and holds nothing when
      it draws on the lookup path; an unspecified type means INCLUDE, and a
      lone integer is the type. */
  function Construct(specs: SpecArg, specType: nat): (r: Result<Spec, RepoError>)
    ensures r.Ok? ==> Has(r.value.specType, INCLUDE) || Has(r.value.specType, EXCLUDE) ||
                      Has(r.value.specType, FROM_LOOKUP_PATH)
    ensures r.Ok? ==> !(Has(r.value.specType, INCLUDE) && Has(r.value.specType, EXCLUDE))
    ensures r.Ok? && Has(r.value.specType, FROM_LOOKUP_PATH) ==> r.value.data == []
    ensures specType == 0 && !specs.Number? && Appended(specs).Ok? ==>
      r == Ok(Spec(INCLUDE, Appended(specs).value))
    ensures specType == 0 && specs.Number? ==>
      (r.Ok? <==> (Has(specs.n, INCLUDE) || Has(specs.n, EXCLUDE) || Has(specs.n, FROM_LOOKUP_PATH))
                  && !(Has(specs.n, INCLUDE) && Has(specs.n, EXCLUDE)))
    ensures specType == 0 && specs.Number? && r.Ok? ==> r.value == Spec(specs.n, [])
    ensures specType == 0 && specs.NoSpecs? ==> r == Ok(Spec(INCLUDE, []))
    ensures specType == 0 && !specs.Number? && !specs.NoSpecs? && Appended(specs).Err? ==> r == Err(BadSpecs)
    ensures specType == 0 && specs.Number? && r.Err? ==>
      r.error == (if Has(specs.n, INCLUDE) && Has(specs.n, EXCLUDE) then IncludeAndExclude else InvalidType)
    ensures specType != 0 && !HasSomeFlag(specType) ==> r == Err(InvalidType)
    ensures specType != 0 && Has(specType, INCLUDE) && Has(specType, EXCLUDE) ==> r == Err(IncludeAndExclude)
    ensures specType != 0 && ValidType(specType) && Has(specType, FROM_LOOKUP_PATH) ==>
      r == (if specs.NoSpecs? then Ok(Spec(specType, [])) else Err(SpecsWithLookupPath))
    ensures specType != 0 && ValidType(specType) && !Has(specType, FROM_LOOKUP_PATH) ==>
      r == (if specs.NoSpecs? then Ok(Spec(specType, []))
            else if Appended(specs).Ok? then Ok(Spec(specType, Appended(specs).value))
            else Err(BadSpecs))
  {
    var (specs, t) :=
      if specType == 0 && specs.Number? then (NoSpecs, specs.n)
      else if specType == 0 then (specs, INCLUDE)
      else (specs, specType);
    if !Has(t, INCLUDE) && !Has(t, EXCLUDE) && !Has(t, FROM_LOOKUP_PATH) then Err(InvalidType)
    else if Has(t, INCLUDE) && Has(t, EXCLUDE) then Err(IncludeAndExclude)
    else if Has(t, FROM_LOOKUP_PATH) && !specs.NoSpecs? then Err(SpecsWithLookupPath)
    else if specs.NoSpecs? then Ok(Spec(t, []))
    else match Appended(specs) {
      case Ok(items) => Ok(Spec(t, items))
      case Err(e) => Err(e)
    }
  }

  /** `is_valid_name`: a repository name holds no `/`. */
  predicate IsValidName(name: string) {
    '/' !in name
  }

  /** The first repository on the lookup path whose name is `name`, or
      `name` itself. */
  function NamedRepo(name: string, repoPath: seq<string>, nameOf: string -> string): (r: string)
    ensures r == name || (r in repoPath && nameOf(r) == name)
    ensures (exists i :: 0 <= i < |repoPath| && nameOf(repoPath[i]) == name) ==> r in repoPath
  {
    if repoPath == [] then name
    else if nameOf(repoPath[0]) == name then repoPath[0]
    else NamedRepo(name, repoPath[1..], nameOf)
  }

  /** No repository before the one `NamedRepo` picks carries `name`. */
  lemma {:induction false} NamedRepoIsFirst(name: string, repoPath: seq<string>, nameOf: string -> string, i: nat)
    requires i < |repoPath| && nameOf(repoPath[i]) == name
    ensures var r := NamedRepo(name, repoPath, nameOf);
      exists j :: 0 <= j <= i && repoPath[j] == r && forall k :: 0 <= k < j ==> nameOf(repoPath[k]) != name
  {
    if nameOf(repoPath[0]) == name {
      assert repoPath[0] == NamedRepo(name, repoPath, nameOf);
    } else {
      NamedRepoIsFirst(name, repoPath[1..], nameOf, i - 1);
      var r := NamedRepo(name, repoPath, nameOf);
      var j :| 0 <= j <= i - 1 && repoPath[1..][j] == r &&
               forall k :: 0 <= k < j ==> nameOf(repoPath[1..][k]) != name;
      assert repoPath[j + 1] == r;
      forall k | 0 <= k < j + 1 ensures nameOf(repoPath[k]) != name {
        if k > 0 { assert repoPath[k] == repoPath[1..][k - 1]; }
      }
    }
  }

  /** `named`: the loop over `repo_path`. */
  method Named(name: string, env: RepoEnv) returns (r: string)
    ensures r == NamedRepo(name, env.repoPath, env.nameOf)
  {
    var i := 0;
    while i < |env.repoPath|
      invariant 0 <= i <= |env.repoPath|
      invariant NamedRepo(name, env.repoPath, env.nameOf) == NamedRepo(name, env.repoPath[i..], env.nameOf)
    {
      if env.nameOf(env.repoPath[i]) == name {
        return env.repoPath[i];
      }
      assert env.repoPath[i..][1..] == env.repoPath[i + 1..];
      i := i + 1;
    }
    return name;
  }

  /** `resolve`: the empty text stays empty, a name resolves through the
      lookup path, anything else becomes an absolute path. */
  function Resolve(pathOrName: string, env: RepoEnv): (r: string)
    ensures pathOrName == "" ==> r == ""
    ensures pathOrName != "" && IsValidName(pathOrName) ==>
      (r == pathOrName || (r in env.repoPath && env.nameOf(r) == pathOrName))
    ensures pathOrName != "" && !IsValidName(pathOrName) ==> r == env.abspath(pathOrName)
  {
    if pathOrName == "" then ""
    else if IsValidName(pathOrName) then NamedRepo(pathOrName, env.repoPath, env.nameOf)
    else env.abspath(pathOrName)
  }

  /** Every sub-spec of the list is an EXCLUDE spec, so the result starts
      from the lookup path. */
  predicate AllExcluding(data: seq<Item>) {
    forall i :: 0 <= i < |data| ==> data[i].SubItem? && Has(data[i].sub.specType, EXCLUDE)
  }

  /** `_abspaths(included)`: the paths a spec includes (`included`) or
      excludes. */
  function SpecPaths(s: Spec, included: bool, env: RepoEnv): (r: seq<string>)
    decreases s, 1
    ensures included && Has(s.specType, EXCLUDE) ==> r == []
    ensures !included && !Has(s.specType, EXCLUDE) ==> r == []
    ensures included && !Has(s.specType, EXCLUDE) && s.data == [] ==> r == env.repoPath
    ensures included != Has(s.specType, EXCLUDE) && s.data != [] && Has(s.specType, FROM_LOOKUP_PATH) ==>
      r == env.repoPath
  {
    if (included && Has(s.specType, EXCLUDE)) || (!included && !Has(s.specType, EXCLUDE)) then []
    else if s.data == [] then (if included then env.repoPath else [])
    else if Has(s.specType, FROM_LOOKUP_PATH) then env.repoPath
    else Unique(Gather(s, 0, if AllExcluding(s.data) then env.repoPath else [], env))
  }

  /** The accumulated list after item `i` of the spec is applied to `acc`:
      a path is resolved and appended, an EXCLUDE sub-spec filters out what
      it excludes, any other sub-spec appends what it includes. */
  function Apply(s: Spec, i: nat, acc: seq<string>, env: RepoEnv): seq<string>
    requires i < |s.data|
    decreases s, 0, |s.data| - i, 0
  {
    match s.data[i]
    case PathItem(p) => acc + [Resolve(p, env)]
    case SubItem(sub) =>
      if Has(sub.specType, EXCLUDE) then
        var excluded := SpecPaths(sub, false, env);
        Filter(acc, p => p !in excluded)
      else acc + SpecPaths(sub, true, env)
  }

  /** The accumulated list after items `i..` of the spec are applied to
      `acc`. */
  function Gather(s: Spec, i: nat, acc: seq<string>, env: RepoEnv): seq<string>
    requires i <= |s.data|
    decreases s, 0, |s.data| - i, 1
  {
    if i == |s.data| then acc else Gather(s, i + 1, Apply(s, i, acc, env), env)
  }

  /** Item `item` adds path `p` to the accumulated list. */
  predicate Contributes(item: Item, p: string, env: RepoEnv) {
    match item
    case PathItem(q) => p == Resolve(q, env)
    case SubItem(sub) => !Has(sub.specType, EXCLUDE) && p in SpecPaths(sub, true, env)
  }

  /** Item `item` removes path `p` from the accumulated list. */
  predicate Removes(item: Item, p: string, env: RepoEnv) {
    item.SubItem? && Has(item.sub.specType, EXCLUDE) && p in SpecPaths(item.sub, false, env)
  }

  /** No item from `lo` on removes `p`. */
  ghost predicate KeptFrom(s: Spec, lo: nat, p: string, env: RepoEnv) {
    forall k :: lo <= k < |s.data| ==> !Removes(s.data[k], p, env)
  }

  /** Some item from `lo` on adds `p`, and no later item removes it. */
  ghost predicate AddedFrom(s: Spec, lo: nat, p: string, env: RepoEnv) {
    exists j :: lo <= j < |s.data| && Contributes(s.data[j], p, env) && KeptFrom(s, j + 1, p, env)
  }

  /** A path is in the accumulated list exactly when it was there already
      and nothing removes it, or some item adds it and no later item
      removes it. */
  lemma {:induction false} GatherMembers(s: Spec, i: nat, acc: seq<string>, env: RepoEnv, p: string)
    requires i <= |s.data|
    ensures p in Gather(s, i, acc, env) <==>
      (p in acc && KeptFrom(s, i, p, env)) || AddedFrom(s, i, p, env)
    decreases |s.data| - i
  {
    if i < |s.data| {
      GatherMembers(s, i + 1, Apply(s, i, acc, env), env, p);
      ApplyMembers(s, i, acc, env, p);
      assert KeptFrom(s, i, p, env) <==> !Removes(s.data[i], p, env) && KeptFrom(s, i + 1, p, env);
      AddedFromStep(s, i, p, env);
    }
  }

  /** One item keeps what it does not remove and adds what it contributes. */
  lemma ApplyMembers(s: Spec, i: nat, acc: seq<string>, env: RepoEnv, p: string)
    requires i < |s.data|
    ensures p in Apply(s, i, acc, env) <==>
      (p in acc && !Removes(s.data[i], p, env)) || Contributes(s.data[i], p, env)
  {
    var next := Apply(s, i, acc, env);
    match s.data[i]
    case PathItem(q) =>
      assert p in next <==> p in acc || p == Resolve(q, env);
    case SubItem(sub) =>
      if Has(sub.specType, EXCLUDE) {
        if p in next {
          var k :| 0 <= k < |next| && next[k] == p;
        }
        if p in acc {
          var k :| 0 <= k < |acc| && acc[k] == p;
        }
      } else {
        assert p in next <==> p in acc || p in SpecPaths(sub, true, env);
      }
  }

  /** Unfolds `AddedFrom` by one item. */
  lemma AddedFromStep(s: Spec, i: nat, p: string, env: RepoEnv)
    requires i < |s.data|
    ensures AddedFrom(s, i, p, env) <==>
      (Contributes(s.data[i], p, env) && KeptFrom(s, i + 1, p, env)) || AddedFrom(s, i + 1, p, env)
  {
    if AddedFrom(s, i, p, env) {
      var j :| i <= j < |s.data| && Contributes(s.data[j], p, env) && KeptFrom(s, j + 1, p, env);
      if j > i {
        assert AddedFrom(s, i + 1, p, env) by { AddedWitness(s, i + 1, j, p, env); }
      }
    }
    if AddedFrom(s, i + 1, p, env) {
      var j :| i + 1 <= j < |s.data| && Contributes(s.data[j], p, env) && KeptFrom(s, j + 1, p, env);
      AddedWitness(s, i, j, p, env);
    }
    if Contributes(s.data[i], p, env) && KeptFrom(s, i + 1, p, env) {
      AddedWitness(s, i, i, p, env);
    }
  }

  /** An item at `j >= lo` that adds `p`, with no later item removing it,
      witnesses `AddedFrom(s, lo)`. */
  lemma AddedWitness(s: Spec, lo: nat, j: nat, p: string, env: RepoEnv)
    requires lo <= j < |s.data| && Contributes(s.data[j], p, env) && KeptFrom(s, j + 1, p, env)
    ensures AddedFrom(s, lo, p, env)
  {
  }

  /** A spec that lists paths (it is neither empty nor drawn from the
      lookup path) yields each path once, in order of first occurrence, and
      a path belongs to it exactly when it comes from the lookup path (every
      item being an EXCLUDE sub-spec) and no item removes it, or an item
      adds it and no later item removes it. */
  lemma SpecPathsMembers(s: Spec, included: bool, env: RepoEnv, p: string)
    requires included != Has(s.specType, EXCLUDE)
    requires s.data != [] && !Has(s.specType, FROM_LOOKUP_PATH)
    ensures NoDuplicates(SpecPaths(s, included, env))
    ensures p in SpecPaths(s, included, env) <==>
      (AllExcluding(s.data) && p in env.repoPath && KeptFrom(s, 0, p, env)) || AddedFrom(s, 0, p, env)
  {
    var start := if AllExcluding(s.data) then env.repoPath else [];
    var g := Gather(s, 0, start, env);
    assert SpecPaths(s, included, env) == Unique(g);
    GatherMembers(s, 0, start, env, p);
    assert p in Unique(g) <==> p in g by {
      if p in g { var k :| 0 <= k < |g| && g[k] == p; }
      if p in Unique(g) { var k :| 0 <= k < |Unique(g)| && Unique(g)[k] == p; }
    }
  }

  /** When every item is an EXCLUDE sub-spec, the spec yields the lookup
      path minus every path some item excludes. */
  lemma ExcludeOnlyMembers(s: Spec, included: bool, env: RepoEnv, p: string)
    requires included != Has(s.specType, EXCLUDE)
    requires s.data != [] && !Has(s.specType, FROM_LOOKUP_PATH) && AllExcluding(s.data)
    ensures p in SpecPaths(s, included, env) <==>
      p in env.repoPath && forall k :: 0 <= k < |s.data| ==> p !in SpecPaths(s.data[k].sub, false, env)
  {
    SpecPathsMembers(s, included, env, p);
    forall j | 0 <= j < |s.data| ensures !Contributes(s.data[j], p, env) {
    }
    assert KeptFrom(s, 0, p, env) <==>
      forall k :: 0 <= k < |s.data| ==> p !in SpecPaths(s.data[k].sub, false, env);
  }

  /** A path removed by the last item of a spec is not in its result. */
  lemma LastExclusionWins(s: Spec, included: bool, env: RepoEnv, p: string)
    requires included != Has(s.specType, EXCLUDE)
    requires s.data != [] && !Has(s.specType, FROM_LOOKUP_PATH)
    requires Removes(s.data[|s.data| - 1], p, env)
    ensures p !in SpecPaths(s, included, env)
  {
    var last := |s.data| - 1;
    assert !KeptFrom(s, 0, p, env) by {
      assert Removes(s.data[last], p, env);
    }
    assert !AddedFrom(s, 0, p, env) by {
      forall j | 0 <= j < |s.data| ensures !(Contributes(s.data[j], p, env) && KeptFrom(s, j + 1, p, env)) {
        if j < last {
          assert Removes(s.data[last], p, env);
        }
      }
    }
    SpecPathsMembers(s, included, env, p);
  }

  /** The spec object: a type fixed at construction and the list `append`
      extends. */
  class RepoSpec {
    const specType: nat
    var data: seq<Item>

    function View(): Spec
      reads this
    {
      Spec(specType, data)
    }

    constructor(specType: nat)
      ensures this.specType == specType && data == []
    {
      this.specType := specType;
      data := [];
    }

    /** `append`: extends the list with what `Appended` yields, or raises
        and leaves it as it was. */
    method Append(specs: SpecArg) returns (r: Outcome<RepoError>)
      modifies this`data
      ensures Appended(specs).Ok? ==> r == Pass && data == old(data) + Appended(specs).value
      ensures Appended(specs).Err? ==> r == Fail(BadSpecs) && data == old(data)
    {
      match specs {
        case Text(text) =>
          AppendLines(Split(text, '\n'));
          return Pass;
        case OneSpec(spec) =>
          data := data + [SubItem(spec)];
          return Pass;
        case Many(elems) =>
          if forall i :: 0 <= i < |elems| ==> !elems[i].ElemOther? {
            data := data + Appended(specs).value;
            return Pass;
          }
          return Fail(BadSpecs);
        case _ =>
          return Fail(BadSpecs);
      }
    }

    /** The string branch of `append`: the non-empty lines, in order. */
    method AppendLines(lines: seq<string>)
      modifies this`data
      ensures data == old(data) + PathItems(Filter(lines, NonEmpty))
    {
      var i := 0;
      while i < |lines|
        invariant 0 <= i <= |lines|
        invariant data == old(data) + PathItems(Filter(lines[..i], NonEmpty))
      {
        FilterStep(lines, i, NonEmpty);
        PathItemsAppend(Filter(lines[..i], NonEmpty), if NonEmpty(lines[i]) then [lines[i]] else []);
        if lines[i] != "" {
          data := data + [PathItem(lines[i])];
        }
        i := i + 1;
      }
      assert lines[..i] == lines;
    }

    /** `_abspaths(included)`. */
    method Abspaths(included: bool, env: RepoEnv) returns (r: seq<string>)
      ensures r == SpecPaths(View(), included, env)
    {
      if (included && Has(specType, EXCLUDE)) || (!included && !Has(specType, EXCLUDE)) {
        return [];
      }
      if data == [] {
        return if included then env.repoPath else [];
      }
      if Has(specType, FROM_LOOKUP_PATH) {
        return env.repoPath;
      }
      var result := env.repoPath;
      var i := 0;
      while i < |data|
        invariant 0 <= i <= |data|
        invariant result == env.repoPath
        invariant forall k :: 0 <= k < i ==> data[k].SubItem? && Has(data[k].sub.specType, EXCLUDE)
      {
        if data[i].PathItem? || !Has(data[i].sub.specType, EXCLUDE) {
          result := [];
          break;
        }
        i := i + 1;
      }
      ghost var start := result;
      assert start == if AllExcluding(data) then env.repoPath else [];
      i := 0;
      while i < |data|
        invariant 0 <= i <= |data|
        invariant Gather(View(), i, result, env) == Gather(View(), 0, start, env)
      {
        match data[i] {
          case PathItem(p) =>
            result := result + [Resolve(p, env)];
          case SubItem(sub) =>
            if Has(sub.specType, EXCLUDE) {
              var excluded := SpecPaths(sub, false, env);
              result := Filter(result, p => p !in excluded);
            } else {
              result := result + SpecPaths(sub, true, env);
            }
        }
        i := i + 1;
      }
      return Unique(result);
    }
  }

  /** `RepoSpec(specs, spec_type)`: the checks of the constructor, then
      `append`. */
  method NewRepoSpec(specs: SpecArg, specType: nat) returns (r: Result<RepoSpec, RepoError>)
    ensures Construct(specs, specType).Err? ==> r == Err(Construct(specs, specType).error)
    ensures Construct(specs, specType).Ok? ==>
      r.Ok? && fresh(r.value) && r.value.View() == Construct(specs, specType).value
  {
    var specs, t := specs, specType;
    if t == 0 && specs.Number? {
      t := specs.n;
      specs := NoSpecs;
    } else if t == 0 {
      t := INCLUDE;
    }
    if !Has(t, INCLUDE) && !Has(t, EXCLUDE) && !Has(t, FROM_LOOKUP_PATH) {
      return Err(InvalidType);
    }
    if Has(t, INCLUDE) && Has(t, EXCLUDE) {
      return Err(IncludeAndExclude);
    }
    if Has(t, FROM_LOOKUP_PATH) && !specs.NoSpecs? {
      return Err(SpecsWithLookupPath);
    }
    var spec := new RepoSpec(t);
    if !specs.NoSpecs? {
      var outcome := spec.Append(specs);
      if outcome.Fail? {
        return Err(outcome.error);
      }
    }
    return Ok(spec);
  }

  /** The candidate paths `abspath(repo + "/" + template)`, in order. */
  function Candidates(template: string, repos: seq<string>, abspath: string -> string): (r: seq<string>)
    ensures |r| == |repos|
    ensures forall i :: 0 <= i < |repos| ==> r[i] == abspath(repos[i] + "/" + template)
  {
    seq(|repos|, i requires 0 <= i < |repos| => abspath(repos[i] + "/" + template))
  }

  /** `find_template`: every existing candidate with `all_repos`, otherwise
      only the first. */
  method FindTemplate(template: string, repos: seq<string>, allRepos: bool,
                      pathExists: string -> bool, abspath: string -> string)
    returns (r: seq<string>)
    ensures var found := Filter(Candidates(template, repos, abspath), pathExists);
      if allRepos then r == found else r == found[..if found == [] then 0 else 1]
  {
    var cands := Candidates(template, repos, abspath);
    r := [];
    var i := 0;
    while i < |repos|
      invariant 0 <= i <= |repos|
      invariant allRepos ==> r == Filter(cands[..i], pathExists)
      invariant !allRepos ==> r == [] && Filter(cands[..i], pathExists) == []
    {
      var path := abspath(repos[i] + "/" + template);
      assert cands[..i + 1] == cands[..i] + [cands[i]];
      FilterAppend(cands[..i], [cands[i]], pathExists);
      if !pathExists(path) {
        i := i + 1;
        continue;
      }
      if !allRepos {
        assert cands == cands[..i + 1] + cands[i + 1..];
        FilterAppend(cands[..i + 1], cands[i + 1..], pathExists);
        return [path];
      }
      r := r + [path];
      i := i + 1;
    }
    assert cands[..i] == cands;
  }
}
